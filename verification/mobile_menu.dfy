/** The mobile menu: a button and a panel that each carry an 'active'
    class, and the body's overflow style, which locks scrolling while the
    panel is open. */
module MobileMenu {

  const Hidden := "hidden"

  /** The state the listeners read and write. */
  datatype MenuState = MenuState(buttonActive: bool, panelActive: bool, bodyOverflow: string)

  /** What the page reacts to: a click on the button, a click on a link
      inside the panel, a key press anywhere in the document. */
  datatype Event = ButtonClick | LinkClick | KeyDown(key: string)

  const Closed := MenuState(false, false, "")

  /** Button and panel agree, and scrolling is locked exactly when the panel is open. */
  predicate InLockstep(s: MenuState) {
    s.buttonActive == s.panelActive && (s.bodyOverflow == Hidden <==> s.panelActive)
    && (!s.panelActive ==> s.bodyOverflow == "")
  }

  /** The effect of one event. */
  function Step(s: MenuState, e: Event): (t: MenuState)
    ensures e == ButtonClick ==>
              t.buttonActive == !s.buttonActive && t.panelActive == !s.panelActive
              && t.bodyOverflow == (if t.panelActive then Hidden else "")
    ensures e == LinkClick ==> t == Closed
    ensures e.KeyDown? ==> t == if e.key == "Escape" && s.panelActive then Closed else s
  {
    match e
    case ButtonClick =>
      var open := !s.panelActive;
      MenuState(!s.buttonActive, open, if open then Hidden else "")
    case LinkClick => Closed
    case KeyDown(key) => if key == "Escape" && s.panelActive then Closed else s
  }

  /** Every event keeps the lockstep. */
  lemma StepKeepsLockstep(s: MenuState, e: Event)
    requires InLockstep(s)
    ensures InLockstep(Step(s, e))
  {
  }

  /** A link click or Escape always leaves the menu closed and scrolling free. */
  lemma DismissCloses(s: MenuState, e: Event)
    requires InLockstep(s)
    requires e == LinkClick || e == KeyDown("Escape")
    ensures Step(s, e) == Closed
  {
  }

  /** Two button clicks in a row restore the state. */
  lemma ToggleTwice(s: MenuState)
    requires InLockstep(s)
    ensures Step(Step(s, ButtonClick), ButtonClick) == s
  {
  }

  function Run(s: MenuState, es: seq<Event>): MenuState
    decreases |es|
  {
    if es == [] then s else Run(Step(s, es[0]), es[1..])
  }

  /** From the closed page, after any sequence of events, the body is
      scroll-locked exactly when the panel is open, and the button agrees. */
  lemma {:induction false} RunKeepsLockstep(s: MenuState, es: seq<Event>)
    requires InLockstep(s)
    ensures InLockstep(Run(s, es))
    decreases |es|
  {
    if es != [] {
      StepKeepsLockstep(s, es[0]);
      RunKeepsLockstep(Step(s, es[0]), es[1..]);
    }
  }

  /** Whether the panel is open after a run: each button click flips it,
      and each link click or Escape closes it. */
  function OpenAfter(open: bool, es: seq<Event>): bool
    decreases |es|
  {
    if es == [] then open
    else match es[0]
      case ButtonClick => OpenAfter(!open, es[1..])
      case LinkClick => OpenAfter(false, es[1..])
      case KeyDown(key) => OpenAfter(if key == "Escape" then false else open, es[1..])
  }

  lemma {:induction false} RunOpenAfter(s: MenuState, es: seq<Event>)
    ensures Run(s, es).panelActive == OpenAfter(s.panelActive, es)
    decreases |es|
  {
    if es != [] {
      RunOpenAfter(Step(s, es[0]), es[1..]);
    }
  }

  /** The three listeners over the page's menu state. */
  class Menu {
    var buttonActive: bool
    var panelActive: bool
    var bodyOverflow: string

    function State(): MenuState
      reads this
    {
      MenuState(buttonActive, panelActive, bodyOverflow)
    }

    ghost predicate Valid()
      reads this
    {
      InLockstep(State())
    }

    /** The page loads with the menu closed. */
    constructor ()
      ensures Valid() && State() == Closed
    {
      buttonActive, panelActive, bodyOverflow := false, false, "";
    }

    method OnButtonClick()
      requires Valid()
      modifies this
      ensures Valid()
      ensures State() == Step(old(State()), ButtonClick)
    {
      buttonActive := !buttonActive;
      panelActive := !panelActive;
      bodyOverflow := if panelActive then Hidden else "";
    }

    method OnLinkClick()
      requires Valid()
      modifies this
      ensures Valid()
      ensures State() == Step(old(State()), LinkClick)
    {
      buttonActive := false;
      panelActive := false;
      bodyOverflow := "";
    }

    method OnKeyDown(key: string)
      requires Valid()
      modifies this
      ensures Valid()
      ensures State() == Step(old(State()), KeyDown(key))
    {
      if key == "Escape" && panelActive {
        buttonActive := false;
        panelActive := false;
        bodyOverflow := "";
      }
    }
  }
}
