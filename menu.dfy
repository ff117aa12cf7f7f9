/**
 * The mobile menu: the burger button's `aria-expanded` attribute, the menu's
 * `hidden` attribute, the two document listeners that dismiss the menu, and
 * the burger's cosmetic `is-active` class, which a deferred tick copies from
 * `aria-expanded` after each burger click.
 *
 * Events are method calls. The pure functions below give each event's effect
 * on the visible state; the class `Menu` performs the same updates in place.
 */
module MobileMenu {

  /** The document listeners the menu registers while open. */
  datatype Listener = EscapeKeydown | OutsideClick

  const Dismissal: set<Listener> := {EscapeKeydown, OutsideClick}

  /**
   * What the menu controllers can observe: the burger's `aria-expanded`
   * string, whether the menu carries `hidden`, the registered document
   * listeners (a set, since registering the same function twice is ignored)
   * and whether the burger carries `is-active`.
   */
  datatype Ui = Ui(ariaExpanded: string, hidden: bool, listeners: set<Listener>, glow: bool)

  /** `String(b)` for a boolean. */
  function AttrString(b: bool): string
  {
    if b then "true" else "false"
  }

  /** The burger click handler and the glow tick read the state this way. */
  predicate Expanded(u: Ui)
  {
    u.ariaExpanded == "true"
  }

  /** The burger's attribute agrees with the menu's visibility. */
  predicate Mirrored(u: Ui)
  {
    u.ariaExpanded == AttrString(!u.hidden)
  }

  /** Mirrored, and the dismissal listeners are registered exactly while open. */
  predicate Consistent(u: Ui)
  {
    Mirrored(u) && u.listeners == (if u.hidden then {} else Dismissal)
  }

  /**
   * What every reachable state satisfies once the page is consistent:
   * mirrored, and both dismissal listeners registered while open. A closed
   * menu may still hold them after a navigation click (see NavClick).
   */
  predicate Coherent(u: Ui)
  {
    Mirrored(u) && (!u.hidden ==> u.listeners == Dismissal)
  }

  lemma AllListenersDismiss(s: set<Listener>)
    ensures s + Dismissal == Dismissal && s - Dismissal == {}
  {
    forall l | l in s ensures l in Dismissal {
      if l.EscapeKeydown? { } else { }
    }
  }

  /** toggleMobileMenu(open). */
  function Toggle(u: Ui, open: bool): (r: Ui)
    ensures Consistent(r) && Expanded(r) == open && r.hidden == !open
    ensures r.glow == u.glow
  {
    AllListenersDismiss(u.listeners);
    if open then
      u.(ariaExpanded := AttrString(true), hidden := false, listeners := u.listeners + Dismissal)
    else
      u.(ariaExpanded := AttrString(false), hidden := true, listeners := u.listeners - Dismissal)
  }

  /** The burger's click handler: toggle to the opposite of what `aria-expanded` says. */
  function BurgerClick(u: Ui): (r: Ui)
    ensures Consistent(r) && Expanded(r) == !Expanded(u)
    ensures r.glow == u.glow
  {
    Toggle(u, !Expanded(u))
  }

  /** A keydown reaching the document: only the registered Escape handler reacts. */
  function KeyDown(u: Ui, key: string): Ui
  {
    if EscapeKeydown in u.listeners && key == "Escape" then Toggle(u, false) else u
  }

  /** A click reaching the document, with where its target lies. */
  function DocumentClick(u: Ui, inMenu: bool, inBurger: bool): Ui
  {
    if OutsideClick in u.listeners && !inMenu && !inBurger then Toggle(u, false) else u
  }

  /**
   * Whether the navigation click handler intercepts a link: the `href` (the
   * empty string when the attribute is absent) starts with `#` and names an
   * element that exists.
   */
  predicate Intercepted(href: string, targetFound: bool)
  {
    |href| > 0 && href[0] == '#' && targetFound
  }

  /**
   * The menu-closing branch of the navigation click handler. It writes the
   * two attributes directly and leaves the document listeners registered.
   */
  function NavClick(u: Ui, href: string, targetFound: bool): Ui
  {
    if Intercepted(href, targetFound) && !u.hidden then
      u.(ariaExpanded := "false", hidden := true)
    else u
  }

  /** The glow tick deferred by a burger click: mirror `aria-expanded` into `is-active`. */
  function GlowTick(u: Ui): (r: Ui)
    ensures r.glow == Expanded(r)
    ensures r.(glow := u.glow) == u
  {
    u.(glow := Expanded(u))
  }

  /** Everything that can happen to the menu, as one event type. */
  datatype Event =
    | Burger
    | Key(key: string)
    | Click(inMenu: bool, inBurger: bool)
    | Nav(href: string, targetFound: bool)
    | Tick

  function Step(u: Ui, e: Event): Ui
  {
    match e
    case Burger => BurgerClick(u)
    case Key(k) => KeyDown(u, k)
    case Click(m, b) => DocumentClick(u, m, b)
    case Nav(h, f) => NavClick(u, h, f)
    case Tick => GlowTick(u)
  }

  function Run(u: Ui, es: seq<Event>): Ui
  {
    if es == [] then u else Step(Run(u, es[..|es| - 1]), es[|es| - 1])
  }

  predicate NoNav(es: seq<Event>)
  {
    forall k :: 0 <= k < |es| ==> !es[k].Nav?
  }

  // ---- properties ----

  /** Two burger clicks restore the state exactly when the state was consistent to begin with. */
  lemma BurgerClickTwice(u: Ui)
    ensures BurgerClick(BurgerClick(u)) == u <==> Consistent(u)
  {
    var once := BurgerClick(u);
    if Consistent(u) {
      if u.hidden {
        assert !Expanded(u) && Expanded(once);
      } else {
        assert Expanded(u) && !Expanded(once);
      }
    }
  }

  /** Opening an open menu registers nothing twice; closing a closed one changes nothing. */
  lemma ToggleIdempotent(u: Ui, open: bool)
    ensures Toggle(Toggle(u, open), open) == Toggle(u, open)
    ensures Consistent(u) && u.hidden == !open ==> Toggle(u, open) == u
  {
  }

  /** Escape closes a coherent menu and detaches its listeners; any other key changes nothing. */
  lemma EscapeDismisses(u: Ui, key: string)
    requires Coherent(u)
    ensures key == "Escape" ==>
              KeyDown(u, key).hidden && KeyDown(u, key).ariaExpanded == "false"
              && (EscapeKeydown in u.listeners ==> KeyDown(u, key).listeners == {})
    ensures key != "Escape" ==> KeyDown(u, key) == u
  {
  }

  /** An outside click closes a coherent menu; a click inside the menu or on the burger changes nothing. */
  lemma OutsideClickDismisses(u: Ui, inMenu: bool, inBurger: bool)
    requires Coherent(u)
    ensures !inMenu && !inBurger ==>
              DocumentClick(u, inMenu, inBurger).hidden
              && DocumentClick(u, inMenu, inBurger).ariaExpanded == "false"
    ensures inMenu || inBurger ==> DocumentClick(u, inMenu, inBurger) == u
  {
  }

  /**
   * A navigation click changes the menu only when it is intercepted and the
   * menu is open; it then closes it, keeping the listeners registered.
   */
  lemma NavClickCloses(u: Ui, href: string, targetFound: bool)
    ensures NavClick(u, href, targetFound).listeners == u.listeners
    ensures Intercepted(href, targetFound) && !u.hidden ==>
              NavClick(u, href, targetFound).hidden
              && NavClick(u, href, targetFound).ariaExpanded == "false"
    ensures !(Intercepted(href, targetFound) && !u.hidden) ==> NavClick(u, href, targetFound) == u
  {
  }

  /**
   * As written, closing through a navigation link leaves both dismissal
   * listeners attached to a hidden menu, so "listeners registered exactly
   * while open" is not an invariant of the page.
   */
  lemma NavClickLeavesListeners()
    ensures var shown := BurgerClick(Ui("false", true, {}, false));
            var r := NavClick(shown, "#projects", true);
            r.hidden && r.listeners == Dismissal && !Consistent(r) && Coherent(r)
  {
  }

  /**
   * The navigation click also reaches the document. Starting consistent,
   * the state after both handlers is consistent again exactly when the nav
   * handler changed nothing, or the link lies outside both menu and burger,
   * so that the outside-click handler closes the menu properly. Only links
   * inside the menu leave stale listeners.
   */
  lemma NavClickThenDocument(u: Ui, href: string, targetFound: bool, inMenu: bool, inBurger: bool)
    requires Consistent(u)
    ensures Consistent(DocumentClick(NavClick(u, href, targetFound), inMenu, inBurger)) <==>
            !(Intercepted(href, targetFound) && !u.hidden) || (!inMenu && !inBurger)
  {
  }

  /** Stale listeners on a closed menu cannot change what the page shows. */
  lemma StaleListenersHarmless(u: Ui, key: string, inMenu: bool, inBurger: bool)
    requires Coherent(u) && u.hidden
    ensures KeyDown(u, key).hidden && KeyDown(u, key).ariaExpanded == u.ariaExpanded
    ensures DocumentClick(u, inMenu, inBurger).hidden
    ensures DocumentClick(u, inMenu, inBurger).ariaExpanded == u.ariaExpanded
  {
  }

  /** Every event keeps a coherent state coherent. */
  lemma StepKeepsCoherent(u: Ui, e: Event)
    requires Coherent(u)
    ensures Coherent(Step(u, e))
  {
  }

  /** Every event except a navigation click keeps a consistent state consistent. */
  lemma StepKeepsConsistent(u: Ui, e: Event)
    requires Consistent(u) && !e.Nav?
    ensures Consistent(Step(u, e))
  {
  }

  /** From a coherent state, every run of events stays coherent. */
  lemma {:induction false} RunKeepsCoherent(u: Ui, es: seq<Event>)
    requires Coherent(u)
    ensures Coherent(Run(u, es))
  {
    if es != [] {
      RunKeepsCoherent(u, es[..|es| - 1]);
      StepKeepsCoherent(Run(u, es[..|es| - 1]), es[|es| - 1]);
    }
  }

  /** Without navigation clicks, listeners stay registered exactly while the menu is open. */
  lemma {:induction false} RunKeepsConsistent(u: Ui, es: seq<Event>)
    requires Consistent(u) && NoNav(es)
    ensures Consistent(Run(u, es))
  {
    if es != [] {
      var n := |es| - 1;
      assert NoNav(es[..n]) by {
        forall k | 0 <= k < n ensures !es[..n][k].Nav? {
          assert es[..n][k] == es[k];
        }
      }
      RunKeepsConsistent(u, es[..n]);
      StepKeepsConsistent(Run(u, es[..n]), es[n]);
    }
  }

  /** After a burger click and the glow tick it defers, `is-active` shows whether the menu opened. */
  lemma GlowFollowsBurger(u: Ui)
    ensures var r := GlowTick(BurgerClick(u));
            r.glow == !r.hidden && r.glow == !Expanded(u)
  {
  }

  /**
   * The burger and the menu element, with the listeners registered on the
   * document. The controller is wired only when both elements exist.
   */
  class Menu {
    var ariaExpanded: string
    var hidden: bool
    var listeners: set<Listener>
    var glow: bool

    function State(): Ui
      reads this
    {
      Ui(ariaExpanded, hidden, listeners, glow)
    }

    /** The page as loaded: the markup's attributes and classes, no listeners yet. */
    constructor (ariaExpanded0: string, hidden0: bool, glow0: bool)
      ensures State() == Ui(ariaExpanded0, hidden0, {}, glow0)
    {
      ariaExpanded := ariaExpanded0;
      hidden := hidden0;
      listeners := {};
      glow := glow0;
    }

    method ToggleMenu(open: bool)
      modifies this
      ensures State() == Toggle(old(State()), open)
    {
      ariaExpanded := AttrString(open);
      if open {
        hidden := false;
        listeners := listeners + {EscapeKeydown};
        listeners := listeners + {OutsideClick};
      } else {
        hidden := true;
        listeners := listeners - {EscapeKeydown};
        listeners := listeners - {OutsideClick};
      }
      AllListenersDismiss(old(listeners));
    }

    method OnBurgerClick()
      modifies this
      ensures State() == BurgerClick(old(State()))
    {
      var expanded := ariaExpanded == "true";
      ToggleMenu(!expanded);
    }

    /** A keydown on the document; the Escape handler runs only while registered. */
    method OnKeyDown(key: string)
      modifies this
      ensures State() == KeyDown(old(State()), key)
    {
      if EscapeKeydown in listeners {
        if key == "Escape" {
          ToggleMenu(false);
        }
      }
    }

    /** A click on the document; the outside-click handler runs only while registered. */
    method OnDocumentClick(inMenu: bool, inBurger: bool)
      modifies this
      ensures State() == DocumentClick(old(State()), inMenu, inBurger)
    {
      if OutsideClick in listeners {
        if !inMenu && !inBurger {
          ToggleMenu(false);
        }
      }
    }

    /** A click on a navigation link; scrolling to the target is not modelled. */
    method OnNavClick(href: string, targetFound: bool)
      modifies this
      ensures State() == NavClick(old(State()), href, targetFound)
    {
      if |href| == 0 || href[0] != '#' {
        return;
      }
      if !targetFound {
        return;
      }
      if !hidden {
        ariaExpanded := "false";
        hidden := true;
      }
    }

    /** The timer callback the glow sync schedules after each burger click. */
    method OnGlowTick()
      modifies this
      ensures State() == GlowTick(old(State()))
    {
      var nowExpanded := ariaExpanded == "true";
      glow := nowExpanded;
    }
  }
}
