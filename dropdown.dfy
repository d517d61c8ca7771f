/**
 * The per-submenu state machine of navigation.js: the state that the script
 * keeps in the DOM for one menu item with children, the `dropDown`
 * transition, and the effect of each event listener the script registers on
 * such an item. The DOM is abstracted to the few values the script reads and
 * writes.
 */
module Dropdown {
  import opened Util

  /** The two button texts (`screenReaderText.expand` and `.collapse`). */
  const Expand: string := "Expand navigation list"
  const Collapse: string := "Collapse navigation list"

  /** The injected `dropdown-toggle` button: `aria-expanded`, its text and `disabled`. */
  datatype Button = Button(ariaExpanded: string, text: string, disabled: bool)

  /**
   * Which listeners of the handler loop are registered on the item:
   * none, only `mouseenter`/`mouseleave`, or all four (mouse, button click,
   * parent-link focus).
   */
  datatype Wiring = Unwired | MouseOnly | Full

  /** One item of `subNavigation`. */
  datatype SubMenu = SubMenu(
    toggled: bool,            // the `toggled` class on the nested list
    button: Option<Button>,   // the dropdown toggle, once `createButton` inserted it
    links: nat,               // number of direct children of the nested list
    collapseListeners: nat,   // blur listeners `collapseMonitor` put on the last link
    wiring: Wiring)

  /** The events the script listens for on a submenu item. */
  datatype Event = MouseEnter | MouseLeave | ButtonClick | ParentFocus | LastLinkBlur

  /**
   * The three-way agreement the markup relies on: the `toggled` class is
   * present exactly when `aria-expanded` is "true" and exactly when the
   * button reads the collapse phrase; both attributes hold one of their two
   * values.
   */
  predicate Consistent(s: SubMenu)
  {
    && s.button.Some?
    && s.button.value.ariaExpanded in {"true", "false"}
    && s.button.value.text in {Expand, Collapse}
    && (s.toggled <==> s.button.value.ariaExpanded == "true")
    && (s.toggled <==> s.button.value.text == Collapse)
  }

  /** Collapsed in all three respects. */
  predicate Collapsed(s: SubMenu)
  {
    Consistent(s) && !s.toggled
  }

  /**
   * The state every submenu keeps: a button, once present, agrees with the
   * list; before the button exists the list is not toggled and no listener
   * that would call `dropDown` is registered; blur listeners are only added
   * by the focus listener, on the last link of a non-empty list.
   */
  predicate Valid(s: SubMenu)
  {
    && (s.button.Some? ==> Consistent(s))
    && (s.button.None? ==> !s.toggled && s.wiring == Unwired)
    && (s.collapseListeners > 0 ==> s.links > 0 && s.wiring == Full)
  }

  /**
   * `createButton`: a new button, collapsed and enabled, reading the expand
   * phrase. A second button would be inserted after the first, where
   * `querySelector` never finds it, so an item that has one keeps it.
   */
  function CreateButton(s: SubMenu): (r: SubMenu)
    ensures r.button.Some?
    ensures s.button.None? ==> r.button.value.ariaExpanded == "false" && r.button.value.text == Expand
    ensures s.button.None? && !s.toggled ==> Collapsed(r)
    ensures Valid(s) ==> Valid(r)
    ensures s.button.None? ==> !r.button.value.disabled
    ensures s.button.Some? ==> r == s
    ensures r.toggled == s.toggled && r.links == s.links && r.wiring == s.wiring
    ensures r.collapseListeners == s.collapseListeners
  {
    if s.button.Some? then s
    else s.(button := Some(Button("false", Expand, false)))
  }

  /**
   * `dropDown(subNav, mouse)`: toggle the class, flip `aria-expanded` and the
   * text, and set `disabled` from `mouse`.
   */
  function DropDown(s: SubMenu, mouse: bool): (r: SubMenu)
    requires s.button.Some?
    ensures r.toggled == !s.toggled
    ensures r.button.Some? && r.button.value.disabled == mouse
    ensures r.button.value.ariaExpanded in {"true", "false"}
    ensures r.button.value.text in {Expand, Collapse}
    ensures r.button.value.ariaExpanded == "true" <==> s.button.value.ariaExpanded == "false"
    ensures r.button.value.text == Collapse <==> s.button.value.text == Expand
    ensures r.links == s.links && r.collapseListeners == s.collapseListeners && r.wiring == s.wiring
    ensures Consistent(s) ==> Consistent(r)
  {
    var b := s.button.value;
    s.(toggled := !s.toggled,
       button := Some(Button(
         if b.ariaExpanded == "false" then "true" else "false",
         if b.text == Expand then Collapse else Expand,
         mouse)))
  }

  /** `k` calls of `dropDown(subNav, mouse)` in a row. */
  function DropDownTimes(s: SubMenu, mouse: bool, k: nat): (r: SubMenu)
    requires k == 0 || s.button.Some?
    ensures s.button.Some? ==> r.button.Some?
    ensures r.toggled == (s.toggled != (k % 2 == 1))
    ensures k > 0 ==> r.button.Some? && r.button.value.disabled == mouse
    ensures r.links == s.links && r.collapseListeners == s.collapseListeners && r.wiring == s.wiring
    ensures Consistent(s) ==> Consistent(r)
    ensures Valid(s) ==> Valid(r)
    decreases k
  {
    if k == 0 then s else DropDown(DropDownTimes(s, mouse, k - 1), mouse)
  }

  /**
   * What one event does to a submenu item: the listener registered for it,
   * if any, runs (navigation.js lines 142-171). Mouse enter calls
   * `dropDown(…, true)`; mouse leave, a button click and a focus on the parent
   * link call `dropDown(…, false)`; the focus also runs `collapseMonitor`,
   * which adds one more blur listener on the last link (and throws on an empty
   * list, after the toggle); a blur of the last link runs every such listener.
   * A disabled button receives no click.
   */
  function Step(s: SubMenu, e: Event): (r: SubMenu)
    requires Valid(s)
    ensures Valid(r)
    ensures r.links == s.links && r.wiring == s.wiring
  {
    match e
    case MouseEnter => if s.wiring == Unwired then s else DropDown(s, true)
    case MouseLeave => if s.wiring == Unwired then s else DropDown(s, false)
    case ButtonClick =>
      if s.wiring == Full && !s.button.value.disabled then DropDown(s, false) else s
    case ParentFocus =>
      if s.wiring != Full then s
      else
        var t := DropDown(s, false);
        if s.links == 0 then t else t.(collapseListeners := t.collapseListeners + 1)
    case LastLinkBlur => DropDownTimes(s, false, s.collapseListeners)
  }

  /** The state after a sequence of events, delivered in order. */
  function Run(s: SubMenu, events: seq<Event>): (r: SubMenu)
    requires Valid(s)
    ensures Valid(r)
    ensures r.links == s.links && r.wiring == s.wiring
    decreases |events|
  {
    if events == [] then s else Run(Step(s, events[0]), events[1..])
  }

  /** Running two sequences one after the other is running their concatenation. */
  lemma {:induction false} RunAppend(s: SubMenu, a: seq<Event>, b: seq<Event>)
    requires Valid(s)
    ensures Run(s, a + b) == Run(Run(s, a), b)
    decreases |a|
  {
    if a == [] {
      assert a + b == b;
    } else {
      assert (a + b)[1..] == a[1..] + b;
      RunAppend(Step(s, a[0]), a[1..], b);
    }
  }

  /**
   * `dropDown` twice brings the class back, and brings back `aria-expanded`
   * and the text exactly when they held one of their two values; `disabled`
   * is what the second call says.
   */
  lemma DropDownTwice(s: SubMenu, first: bool, second: bool)
    requires s.button.Some?
    ensures DropDown(DropDown(s, first), second).toggled == s.toggled
    ensures DropDown(DropDown(s, first), second).button.value.disabled == second
    ensures DropDown(DropDown(s, first), second).button.value.ariaExpanded == s.button.value.ariaExpanded
            <==> s.button.value.ariaExpanded in {"true", "false"}
    ensures DropDown(DropDown(s, first), second).button.value.text == s.button.value.text
            <==> s.button.value.text in {Expand, Collapse}
  {
  }

  /**
   * The agreement of class, attribute and text is what keeps `dropDown`
   * sound: with it, the toggle keeps it; without the two-value domains it is
   * lost. An `aria-expanded` holding neither value is read as "not false" and
   * set to "false" while the class is switched on.
   */
  lemma AgreementNeedsDomains(s: SubMenu, mouse: bool)
    requires s.button.Some? && s.button.value.ariaExpanded !in {"true", "false"}
    requires s.toggled <==> s.button.value.ariaExpanded == "true"
    requires s.toggled <==> s.button.value.text == Collapse
    ensures DropDown(s, mouse).toggled && DropDown(s, mouse).button.value.ariaExpanded == "false"
    ensures !Consistent(DropDown(s, mouse))
  {
  }

  /**
   * The handlers toggle rather than force: mouse enter on a submenu that is
   * already expanded (say by a keyboard focus) collapses it.
   */
  lemma MouseEnterToggles(s: SubMenu)
    requires Valid(s) && s.wiring != Unwired
    ensures Step(s, MouseEnter).toggled == !s.toggled
    ensures s.toggled ==> Collapsed(Step(s, MouseEnter))
    ensures Step(s, MouseEnter).button.value.disabled
  {
  }

  /** A mouse enter and leave pair restores the expansion state and re-enables the button. */
  lemma EnterThenLeave(s: SubMenu)
    requires Valid(s) && s.wiring != Unwired
    ensures var r := Run(s, [MouseEnter, MouseLeave]);
            && r.toggled == s.toggled
            && r.button.value.ariaExpanded == s.button.value.ariaExpanded
            && r.button.value.text == s.button.value.text
            && !r.button.value.disabled
  {
    assert [MouseEnter, MouseLeave][1..] == [MouseLeave];
  }

  /** While the pointer is over the item the button is disabled, so a click changes nothing. */
  lemma HoverBlocksClick(s: SubMenu)
    requires Valid(s) && s.wiring == Full
    ensures Step(Step(s, MouseEnter), ButtonClick) == Step(s, MouseEnter)
  {
  }

  /** Without listeners an item ignores every sequence of events. */
  lemma {:induction false} UnwiredIgnoresEvents(s: SubMenu, events: seq<Event>)
    requires Valid(s) && s.wiring == Unwired
    ensures Run(s, events) == s
    decreases |events|
  {
    if events != [] {
      UnwiredIgnoresEvents(Step(s, events[0]), events[1..]);
    }
  }

  /** `k` clicks on the dropdown button in a row. */
  function Clicks(k: nat): (r: seq<Event>)
    ensures |r| == k && forall j :: 0 <= j < k ==> r[j] == ButtonClick
  {
    if k == 0 then [] else Clicks(k - 1) + [ButtonClick]
  }

  /** One more event after a sequence is one more step. */
  lemma RunSnoc(s: SubMenu, events: seq<Event>, e: Event)
    requires Valid(s)
    ensures Run(s, events + [e]) == Step(Run(s, events), e)
  {
    RunAppend(s, events, [e]);
    assert [e][1..] == [];
  }

  /**
   * On a wired item whose button is enabled, each click is one
   * `dropDown(…, false)`, which leaves the button enabled for the next.
   */
  lemma {:induction false} ClicksAreDropDowns(s: SubMenu, k: nat)
    requires Valid(s) && s.wiring == Full && !s.button.value.disabled
    ensures Run(s, Clicks(k)) == DropDownTimes(s, false, k)
  {
    if k > 0 {
      ClicksAreDropDowns(s, k - 1);
      RunSnoc(s, Clicks(k - 1), ButtonClick);
    }
  }

  /** Clicks on a button that is disabled, or that has no click listener, change nothing. */
  lemma {:induction false} IgnoredClicks(s: SubMenu, k: nat)
    requires Valid(s) && (s.wiring != Full || (s.button.Some? && s.button.value.disabled))
    ensures Run(s, Clicks(k)) == s
  {
    if k > 0 {
      IgnoredClicks(s, k - 1);
      RunSnoc(s, Clicks(k - 1), ButtonClick);
    }
  }

  /**
   * Clicking the toggle button an even number of times returns the class,
   * `aria-expanded` and the button text to what they were.
   */
  lemma EvenClicksRestore(s: SubMenu, k: nat)
    requires Valid(s) && s.button.Some?
    ensures Run(s, Clicks(2 * k)).button.Some?
    ensures Run(s, Clicks(2 * k)).toggled == s.toggled
    ensures Run(s, Clicks(2 * k)).button.value.ariaExpanded == s.button.value.ariaExpanded
    ensures Run(s, Clicks(2 * k)).button.value.text == s.button.value.text
  {
    if s.wiring == Full && !s.button.value.disabled {
      ClicksAreDropDowns(s, 2 * k);
      assert (2 * k) % 2 == 0;
    } else {
      IgnoredClicks(s, 2 * k);
    }
  }

  /** `k` focuses of the parent link in a row. */
  function Focuses(k: nat): (r: seq<Event>)
    ensures |r| == k && forall j :: 0 <= j < k ==> r[j] == ParentFocus
  {
    if k == 0 then [] else Focuses(k - 1) + [ParentFocus]
  }

  /**
   * Each focus of the parent link toggles the list once and leaves one more
   * blur listener on the last link.
   */
  lemma {:induction false} FocusesPileUp(s: SubMenu, k: nat)
    requires Valid(s) && s.wiring == Full && s.links > 0
    ensures Run(s, Focuses(k)).collapseListeners == s.collapseListeners + k
    ensures Run(s, Focuses(k)).toggled == (s.toggled != (k % 2 == 1))
  {
    if k > 0 {
      FocusesPileUp(s, k - 1);
      RunAppend(s, Focuses(k - 1), [ParentFocus]);
    }
  }

  /**
   * After `k` focuses of the parent link, one blur of the last link runs the
   * `k` collapse listeners, each a `dropDown(…, false)`; starting without
   * listeners, the focus toggles and the blur toggles cancel out.
   */
  lemma FocusesThenBlur(s: SubMenu, k: nat)
    requires Valid(s) && s.wiring == Full && s.links > 0 && s.collapseListeners == 0
    ensures var r := Run(s, Focuses(k) + [LastLinkBlur]);
            r.collapseListeners == k && r.toggled == s.toggled
  {
    FocusesPileUp(s, k);
    RunAppend(s, Focuses(k), [LastLinkBlur]);
  }

  /** `n` keyboard passes through a submenu: focus the parent link, then leave the last link. */
  function TabThroughs(n: nat): (r: seq<Event>)
    ensures |r| == 2 * n
  {
    if n == 0 then [] else TabThroughs(n - 1) + [ParentFocus, LastLinkBlur]
  }

  /**
   * Because the blur listeners pile up, the `n`-th pass toggles the list
   * `n + 1` times: starting collapsed, the list is left expanded after the
   * second and third passes and collapsed after the first and fourth, with
   * period four.
   */
  lemma {:induction false} TabThroughsExpanded(s: SubMenu, n: nat)
    requires Collapsed(s) && s.wiring == Full && s.links > 0 && s.collapseListeners == 0
    ensures Run(s, TabThroughs(n)).collapseListeners == n
    ensures Run(s, TabThroughs(n)).toggled <==> n % 4 == 2 || n % 4 == 3
  {
    if n > 0 {
      TabThroughsExpanded(s, n - 1);
      var t := Run(s, TabThroughs(n - 1));
      RunAppend(s, TabThroughs(n - 1), [ParentFocus, LastLinkBlur]);
      RunPair(t, ParentFocus, LastLinkBlur);
      OnePass(t);
      PassParity(n);
    }
  }

  /** The arithmetic of one more pass: the `n`-th pass flips the list exactly when `n` is even. */
  lemma PassParity(n: nat)
    requires n > 0
    ensures (n % 4 == 2 || n % 4 == 3) <==> (((n - 1) % 4 == 2 || (n - 1) % 4 == 3) != ((n - 1) % 2 == 1))
  {
    Mod4Successor(n - 1);
    Mod2OfMod4(n - 1);
  }

  /** The remainder by four of a successor. */
  lemma Mod4Successor(m: nat)
    ensures (m + 1) % 4 == if m % 4 == 3 then 0 else m % 4 + 1
  {
  }

  /** Parity read off the remainder by four. */
  lemma {:induction false} Mod2OfMod4(m: nat)
    ensures m % 2 == 1 <==> m % 4 == 1 || m % 4 == 3
  {
    if m >= 4 {
      Mod2OfMod4(m - 4);
      assert (m - 4) % 2 == m % 2;
      assert (m - 4) % 4 == m % 4;
    } else if m < 2 {
      assert m % 4 == m && m % 2 == m;
    } else {
      assert m % 4 == m && m % 2 == m - 2;
    }
  }

  /**
   * One keyboard pass over an item that already carries `m` blur listeners:
   * the focus toggles once and adds a listener, the blur toggles `m + 1` times.
   */
  lemma OnePass(t: SubMenu)
    requires Valid(t) && t.wiring == Full && t.links > 0
    ensures Step(Step(t, ParentFocus), LastLinkBlur).collapseListeners == t.collapseListeners + 1
    ensures Step(Step(t, ParentFocus), LastLinkBlur).toggled == (t.toggled != (t.collapseListeners % 2 == 1))
  {
    FocusStep(t);
    var u := Step(t, ParentFocus);
    BlurStep(u);
    var m := t.collapseListeners;
    assert u.collapseListeners == m + 1;
    assert (m + 1) % 2 == 1 <==> m % 2 == 0;
  }

  /** A focus of the parent link of a wired, non-empty item: one toggle, one more listener. */
  lemma FocusStep(t: SubMenu)
    requires Valid(t) && t.wiring == Full && t.links > 0
    ensures Step(t, ParentFocus).collapseListeners == t.collapseListeners + 1
    ensures Step(t, ParentFocus).toggled == !t.toggled
  {
  }

  /** A blur of the last link: one toggle per listener, listeners unchanged. */
  lemma BlurStep(u: SubMenu)
    requires Valid(u)
    ensures Step(u, LastLinkBlur).collapseListeners == u.collapseListeners
    ensures Step(u, LastLinkBlur).toggled == (u.toggled != (u.collapseListeners % 2 == 1))
  {
  }

  /** Two events in a row are two steps. */
  lemma RunPair(t: SubMenu, a: Event, b: Event)
    requires Valid(t)
    ensures Run(t, [a, b]) == Step(Step(t, a), b)
  {
    assert [a, b][1..] == [b];
    assert [b][1..] == [];
    assert Run(t, [a, b]) == Run(Step(t, a), [b]);
    assert Run(Step(t, a), [b]) == Run(Step(Step(t, a), b), []);
  }

  /**
   * The first keyboard pass collapses the submenu again on leaving; the
   * second leaves it expanded.
   */
  lemma SecondPassStaysExpanded(s: SubMenu)
    requires Collapsed(s) && s.wiring == Full && s.links > 0 && s.collapseListeners == 0
    ensures Collapsed(Run(s, TabThroughs(1)))
    ensures Run(s, TabThroughs(2)).toggled
  {
    TabThroughsExpanded(s, 1);
    TabThroughsExpanded(s, 2);
  }
}
