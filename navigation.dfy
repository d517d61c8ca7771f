/**
 * navigation.js as a class: the references the script keeps at module level
 * (`menuToggle`, `siteNavigation`, `subNavigation`) become fields holding the
 * part of the DOM the script reads and writes, and each function and event
 * listener becomes a method that updates those fields in place.
 */
module Navigation {
  import opened Util
  import opened Dropdown
  import opened Menu

  class SiteNavigation {
    /** `menuToggle !== null`: whether the page has a `.menu-toggle` control. */
    const hasMenuToggle: bool
    /** The `hidden` class on the menu toggle. */
    var toggleHidden: bool
    /** The `hidden` class on `siteNavigation`. */
    var navHidden: bool
    /** Whether `navToggle` is registered as the menu toggle's click listener. */
    var navToggleWired: bool
    /** The menu items in document order, as `currentPage` searches them. */
    var items: seq<MenuItem>
    /** `subNavigation`: the items that have a nested list, in document order. */
    var subMenus: seq<SubMenu>

    ghost predicate Valid()
      reads this
    {
      (navToggleWired ==> hasMenuToggle) && AllValid(subMenus)
    }

    /**
     * The queries at the top of the script: what the page holds before any
     * of it runs. `links[j]` is the number of direct children of the nested
     * list of the `j`-th submenu item.
     */
    constructor (hasMenuToggle: bool, toggleHidden: bool, navHidden: bool,
                 items: seq<MenuItem>, links: seq<nat>)
      ensures Valid()
      ensures this.hasMenuToggle == hasMenuToggle && this.toggleHidden == toggleHidden
      ensures this.navHidden == navHidden && !navToggleWired && this.items == items
      ensures Untouched(subMenus) && |subMenus| == |links|
      ensures forall j :: 0 <= j < |links| ==> subMenus[j].links == links[j]
    {
      this.hasMenuToggle := hasMenuToggle;
      this.toggleHidden := toggleHidden;
      this.navHidden := navHidden;
      this.navToggleWired := false;
      this.items := items;
      this.subMenus := seq(|links|, j requires 0 <= j < |links| => SubMenu(false, None, links[j], 0, Unwired));
    }

    /** `currentPage`, guarded: skips the annotation when no item is current. */
    method CurrentPage()
      modifies this`items
      ensures items == MarkCurrent(old(items))
    {
      var k := First(items, IsCurrent);
      if k.Some? {
        items := items[k.value := items[k.value].(describedBy := Some("current"))];
      }
    }

    /** `currentPage` as written: throws at line 36 when no item is current. */
    method CurrentPageAsWritten() returns (o: Outcome)
      modifies this`items
      ensures o == CurrentPageOutcome(old(items))
      ensures items == if o == Completed then MarkCurrent(old(items)) else old(items)
    {
      var k := First(items, IsCurrent);
      if k.None? {
        return Threw(NoCurrentItem);
      }
      items := items[k.value := items[k.value].(describedBy := Some("current"))];
      o := Completed;
    }

    /**
     * `navSetup`: nothing without a menu toggle; otherwise the toggle is
     * shown, the navigation hidden, `navToggle` registered and a button
     * created on every submenu item.
     */
    method NavSetup()
      requires Valid()
      modifies this`toggleHidden, this`navHidden, this`navToggleWired, this`subMenus
      ensures Valid()
      ensures !hasMenuToggle ==>
                toggleHidden == old(toggleHidden) && navHidden == old(navHidden) &&
                navToggleWired == old(navToggleWired)
      ensures hasMenuToggle ==> !toggleHidden && navHidden && navToggleWired
      ensures subMenus == SetUp(hasMenuToggle, old(subMenus))
    {
      if !hasMenuToggle {
        return;
      }
      toggleHidden := false;
      navHidden := true;
      navToggleWired := true;
      for i := 0 to |subMenus|
        invariant Valid()
        invariant !toggleHidden && navHidden && navToggleWired
        invariant |subMenus| == |old(subMenus)|
        invariant forall j :: 0 <= j < i ==> subMenus[j] == Dropdown.CreateButton(old(subMenus)[j])
        invariant forall j :: i <= j < |subMenus| ==> subMenus[j] == old(subMenus)[j]
      {
        CreateButton(i);
      }
    }

    /** `createButton(li)` on the `i`-th submenu item. */
    method CreateButton(i: nat)
      requires i < |subMenus|
      modifies this`subMenus
      ensures subMenus == old(subMenus)[i := Dropdown.CreateButton(old(subMenus)[i])]
      ensures old(Valid()) ==> Valid()
    {
      if subMenus[i].button.None? {
        subMenus := subMenus[i := subMenus[i].(button := Some(Button("false", Expand, false)))];
      }
    }

    /** `navToggle`: flip the `hidden` class of the navigation. */
    method NavToggle()
      modifies this`navHidden
      ensures navHidden == !old(navHidden)
    {
      navHidden := !navHidden;
    }

    /** A click on the menu toggle: `navToggle` runs if `navSetup` registered it. */
    method MenuToggleClick()
      modifies this`navHidden
      ensures navHidden == if navToggleWired then !old(navHidden) else old(navHidden)
    {
      if navToggleWired {
        NavToggle();
      }
    }

    /**
     * `dropDown(subNavigation[i], mouse)`: the class, `aria-expanded` and the
     * text are toggled and `disabled` is set, on this item only.
     */
    method DropDown(i: nat, mouse: bool)
      requires i < |subMenus| && subMenus[i].button.Some?
      modifies this`subMenus
      ensures subMenus == old(subMenus)[i := Dropdown.DropDown(old(subMenus)[i], mouse)]
      ensures old(Valid()) ==> Valid()
    {
      var s := subMenus[i];
      s := s.(toggled := !s.toggled);
      var b := s.button.value;
      b := b.(ariaExpanded := if b.ariaExpanded == "false" then "true" else "false");
      b := b.(text := if b.text == Expand then Collapse else Expand);
      b := b.(disabled := mouse);
      subMenus := subMenus[i := s.(button := Some(b))];
    }

    /**
     * `collapseMonitor(subNavigation[i])`: one more blur listener on the last
     * link of the nested list, which must have a last link.
     */
    method CollapseMonitor(i: nat)
      requires i < |subMenus| && subMenus[i].links > 0
      modifies this`subMenus
      ensures subMenus == old(subMenus)[i := old(subMenus)[i].(collapseListeners := old(subMenus)[i].collapseListeners + 1)]
    {
      subMenus := subMenus[i := subMenus[i].(collapseListeners := subMenus[i].collapseListeners + 1)];
    }

    /** The handler loop, guarded: an item without a button gets no listeners. */
    method WireHandlers()
      modifies this`subMenus
      ensures subMenus == Wire(old(subMenus))
      ensures old(Valid()) ==> Valid()
    {
      for i := 0 to |subMenus|
        invariant |subMenus| == |old(subMenus)|
        invariant forall j :: 0 <= j < i ==> subMenus[j] == Wire(old(subMenus))[j]
        invariant forall j :: i <= j < |subMenus| ==> subMenus[j] == old(subMenus)[j]
      {
        if subMenus[i].button.Some? {
          subMenus := subMenus[i := subMenus[i].(wiring := Full)];
        }
      }
    }

    /**
     * The handler loop as written: mouse listeners first, then the button is
     * dereferenced, which throws at line 156 on an item that has none.
     */
    method WireHandlersAsWritten() returns (o: Outcome)
      modifies this`subMenus
      ensures (o, subMenus) == WireAsWritten(old(subMenus))
    {
      ghost var k := First(old(subMenus), Unbuttoned);
      for i := 0 to |subMenus|
        invariant |subMenus| == |old(subMenus)|
        invariant forall j :: 0 <= j < i ==> old(subMenus)[j].button.Some? && subMenus[j] == old(subMenus)[j].(wiring := Full)
        invariant forall j :: i <= j < |subMenus| ==> subMenus[j] == old(subMenus)[j]
      {
        subMenus := subMenus[i := subMenus[i].(wiring := MouseOnly)];
        if subMenus[i].button.None? {
          assert k == Some(i);
          ghost var r := WireAsWritten(old(subMenus));
          assert r.0 == Threw(NoDropdownButton);
          assert forall j :: 0 <= j < |subMenus| ==> subMenus[j] == r.1[j];
          assert subMenus == r.1;
          return Threw(NoDropdownButton);
        }
        subMenus := subMenus[i := subMenus[i].(wiring := Full)];
      }
      assert subMenus == Wire(old(subMenus));
      o := Completed;
    }

    /** The `mouseenter` listener: `dropDown(…, true)`. */
    method MouseEnter(i: nat)
      requires Valid() && i < |subMenus|
      modifies this`subMenus
      ensures Valid()
      ensures subMenus == old(subMenus)[i := Step(old(subMenus)[i], Event.MouseEnter)]
    {
      if subMenus[i].wiring != Unwired {
        DropDown(i, true);
      }
    }

    /** The `mouseleave` listener: `dropDown(…, false)`. */
    method MouseLeave(i: nat)
      requires Valid() && i < |subMenus|
      modifies this`subMenus
      ensures Valid()
      ensures subMenus == old(subMenus)[i := Step(old(subMenus)[i], Event.MouseLeave)]
    {
      if subMenus[i].wiring != Unwired {
        DropDown(i, false);
      }
    }

    /** The button's `click` listener, which a disabled button never receives: `dropDown(…, false)`. */
    method ButtonClick(i: nat)
      requires Valid() && i < |subMenus|
      modifies this`subMenus
      ensures Valid()
      ensures subMenus == old(subMenus)[i := Step(old(subMenus)[i], Event.ButtonClick)]
    {
      if subMenus[i].wiring == Full && !subMenus[i].button.value.disabled {
        DropDown(i, false);
      }
    }

    /**
     * The parent link's `focus` listener: `dropDown(…, false)`, then
     * `collapseMonitor`, which throws at line 120 on an empty nested list.
     */
    method ParentFocus(i: nat) returns (o: Outcome)
      requires Valid() && i < |subMenus|
      modifies this`subMenus
      ensures Valid()
      ensures subMenus == old(subMenus)[i := Step(old(subMenus)[i], Event.ParentFocus)]
      ensures o == if old(subMenus)[i].wiring == Full && old(subMenus)[i].links == 0 then Threw(EmptySubmenu) else Completed
    {
      if subMenus[i].wiring == Full {
        DropDown(i, false);
        if subMenus[i].links == 0 {
          return Threw(EmptySubmenu);
        }
        CollapseMonitor(i);
      }
      o := Completed;
    }

    /** A blur of the last link: every listener `collapseMonitor` added runs `dropDown(…, false)`. */
    method LastLinkBlur(i: nat)
      requires Valid() && i < |subMenus|
      modifies this`subMenus
      ensures Valid()
      ensures subMenus == old(subMenus)[i := Step(old(subMenus)[i], Event.LastLinkBlur)]
    {
      var n := subMenus[i].collapseListeners;
      var k := 0;
      while k < n
        invariant 0 <= k <= n
        invariant Valid()
        invariant subMenus == old(subMenus)[i := DropDownTimes(old(subMenus)[i], false, k)]
      {
        DropDown(i, false);
        k := k + 1;
      }
    }

    /**
     * The script at page load, with the two guards: mark the current item,
     * `navSetup`, then the handler loop.
     */
    method Load()
      requires Valid() && Untouched(subMenus) && !navToggleWired
      modifies this`items, this`toggleHidden, this`navHidden, this`navToggleWired, this`subMenus
      ensures Valid()
      ensures items == MarkCurrent(old(items))
      ensures !hasMenuToggle ==> toggleHidden == old(toggleHidden) && navHidden == old(navHidden) && !navToggleWired
      ensures hasMenuToggle ==> !toggleHidden && navHidden && navToggleWired
      ensures subMenus == Wire(SetUp(hasMenuToggle, old(subMenus)))
    {
      CurrentPage();
      NavSetup();
      WireHandlers();
    }

    /**
     * The script at page load as written: a missing current item aborts it at
     * line 36 before anything else runs; a missing menu toggle makes the
     * handler loop throw at line 156.
     */
    method LoadAsWritten() returns (o: Outcome)
      requires Valid()
      modifies this`items, this`toggleHidden, this`navHidden, this`navToggleWired, this`subMenus
      ensures CurrentPageOutcome(old(items)).Threw? ==>
                o == Threw(NoCurrentItem) && items == old(items) && subMenus == old(subMenus) &&
                toggleHidden == old(toggleHidden) && navHidden == old(navHidden) &&
                navToggleWired == old(navToggleWired)
      ensures CurrentPageOutcome(old(items)) == Completed ==>
                items == MarkCurrent(old(items)) &&
                (o, subMenus) == WireAsWritten(SetUp(hasMenuToggle, old(subMenus))) &&
                (!hasMenuToggle ==>
                   toggleHidden == old(toggleHidden) && navHidden == old(navHidden) &&
                   navToggleWired == old(navToggleWired)) &&
                (hasMenuToggle ==> !toggleHidden && navHidden && navToggleWired)
    {
      o := CurrentPageAsWritten();
      if o.Threw? {
        return;
      }
      NavSetup();
      o := WireHandlersAsWritten();
    }
  }

  /** Two clicks on the menu toggle leave the navigation's visibility as it was. */
  method ClickMenuToggleTwice(nav: SiteNavigation)
    modifies nav`navHidden
    ensures nav.navHidden == old(nav.navHidden)
  {
    nav.MenuToggleClick();
    nav.MenuToggleClick();
  }
}
