/**
 * What navigation.js does once, when the page loads: mark the current menu
 * item, set up the menu toggle and the dropdown buttons, and register the
 * listeners of every submenu item. These functions state the effect of each
 * step on the abstract DOM; the class in module Navigation performs them.
 */
module Menu {
  import opened Util
  import opened Dropdown

  /** A menu item in document order: whether it is the current page, and `aria-describedby` on its link. */
  datatype MenuItem = MenuItem(current: bool, describedBy: Option<string>)

  /**
   * The TypeErrors the script can raise: a null current item dereferenced in
   * `currentPage` (line 36), a missing dropdown button dereferenced in the
   * handler loop (line 156), and a nested list without children indexed in
   * `collapseMonitor` (line 120).
   */
  datatype TypeError = NoCurrentItem | NoDropdownButton | EmptySubmenu

  /** How a top-level step of the script ended: normally, or with a TypeError. */
  datatype Outcome = Completed | Threw(error: TypeError)

  function IsCurrent(item: MenuItem): bool { item.current }

  function Unbuttoned(s: SubMenu): bool { s.button.None? }

  /**
   * `currentPage`, guarded: the link of the first current item (in document
   * order) is described by "current"; every other item is left as it was, and
   * a menu without a current item is left unchanged.
   */
  function MarkCurrent(items: seq<MenuItem>): (r: seq<MenuItem>)
    ensures |r| == |items|
    ensures forall j :: 0 <= j < |items| ==> r[j].current == items[j].current
    ensures First(items, IsCurrent).Some? ==>
              var k := First(items, IsCurrent).value;
              r[k].describedBy == Some("current") &&
              forall j :: 0 <= j < |items| && j != k ==> r[j] == items[j]
    ensures (forall j :: 0 <= j < |items| ==> !items[j].current) ==> r == items
  {
    match First(items, IsCurrent)
    case None => items
    case Some(k) => items[k := items[k].(describedBy := Some("current"))]
  }

  /**
   * `currentPage` as written: without a current item `querySelector` yields
   * null and line 36 dereferences it, so the call throws.
   */
  function CurrentPageOutcome(items: seq<MenuItem>): (o: Outcome)
    ensures o.Threw? <==> forall j :: 0 <= j < |items| ==> !items[j].current
    ensures o.Threw? ==> o == Threw(NoCurrentItem)
  {
    if First(items, IsCurrent).None? then Threw(NoCurrentItem) else Completed
  }

  /**
   * A menu whose only item is not the current page: as written the script
   * stops at line 36; guarded, the menu is left as it was.
   */
  lemma PageWithoutCurrentItem()
    ensures CurrentPageOutcome([MenuItem(false, None)]) == Threw(NoCurrentItem)
    ensures MarkCurrent([MenuItem(false, None)]) == [MenuItem(false, None)]
  {
  }

  /** Every submenu item keeps its invariant. */
  predicate AllValid(subs: seq<SubMenu>)
  {
    forall j :: 0 <= j < |subs| ==> Valid(subs[j])
  }

  /** The submenu items as the script finds them in the markup: no button, not toggled, no listener. */
  predicate Untouched(subs: seq<SubMenu>)
  {
    forall j :: 0 <= j < |subs| ==>
      subs[j].button.None? && !subs[j].toggled && subs[j].collapseListeners == 0 && subs[j].wiring == Unwired
  }

  /** The loop of `navSetup`: `createButton` on every submenu item. */
  function WithButtons(subs: seq<SubMenu>): (r: seq<SubMenu>)
    ensures |r| == |subs|
    ensures forall j :: 0 <= j < |subs| ==> r[j].button.Some?
    ensures Untouched(subs) ==> forall j :: 0 <= j < |subs| ==> Collapsed(r[j]) && !r[j].button.value.disabled
    ensures forall j :: 0 <= j < |subs| ==>
              && r[j].toggled == subs[j].toggled && r[j].links == subs[j].links
              && r[j].wiring == subs[j].wiring && r[j].collapseListeners == subs[j].collapseListeners
    ensures forall j :: 0 <= j < |subs| && subs[j].button.Some? ==> r[j] == subs[j]
    ensures AllValid(subs) ==> AllValid(r)
  {
    seq(|subs|, j requires 0 <= j < |subs| => CreateButton(subs[j]))
  }

  /**
   * What `navSetup` does to the submenu items: nothing when the menu toggle
   * is missing (the early return), a button on each otherwise.
   */
  function SetUp(hasMenuToggle: bool, subs: seq<SubMenu>): (r: seq<SubMenu>)
    ensures |r| == |subs|
    ensures !hasMenuToggle ==> r == subs
    ensures hasMenuToggle ==> forall j :: 0 <= j < |subs| ==> r[j].button.Some?
    ensures AllValid(subs) ==> AllValid(r)
  {
    if hasMenuToggle then WithButtons(subs) else subs
  }

  /**
   * The handler loop, guarded: all four listeners on every item that has a
   * button, none on an item without one.
   */
  function Wire(subs: seq<SubMenu>): (r: seq<SubMenu>)
    ensures |r| == |subs|
    ensures forall j :: 0 <= j < |subs| ==>
              r[j].wiring == (if subs[j].button.Some? then Full else subs[j].wiring)
    ensures forall j :: 0 <= j < |subs| ==> r[j].(wiring := subs[j].wiring) == subs[j]
    ensures AllValid(subs) ==> AllValid(r)
  {
    seq(|subs|, j requires 0 <= j < |subs| =>
      if subs[j].button.Some? then subs[j].(wiring := Full) else subs[j])
  }

  /**
   * The handler loop as written: item by item, the mouse listeners are added,
   * then the button is looked up and dereferenced at line 156; the first item
   * without a button throws there, leaving it with its mouse listeners only
   * and the items after it without any.
   */
  function WireAsWritten(subs: seq<SubMenu>): (res: (Outcome, seq<SubMenu>))
    ensures |res.1| == |subs|
    ensures res.0 == Completed <==> forall j :: 0 <= j < |subs| ==> subs[j].button.Some?
    ensures res.0 == Completed ==> res.1 == Wire(subs)
    ensures res.0 != Completed ==> res.0 == Threw(NoDropdownButton)
  {
    match First(subs, Unbuttoned)
    case None => (Completed, Wire(subs))
    case Some(k) =>
      (Threw(NoDropdownButton), seq(|subs|, j requires 0 <= j < |subs| =>
        if j < k then subs[j].(wiring := Full)
        else if j == k then subs[j].(wiring := MouseOnly)
        else subs[j]))
  }

  /**
   * With a menu toggle, the page ends up with one collapsed, enabled button
   * per submenu item, reading the expand phrase, and all listeners in place.
   */
  lemma SetUpWithToggle(subs: seq<SubMenu>)
    requires Untouched(subs)
    ensures var r := Wire(SetUp(true, subs));
            && |r| == |subs| && AllValid(r)
            && forall j :: 0 <= j < |r| ==>
                 && Collapsed(r[j]) && r[j].wiring == Full
                 && r[j].button.value.ariaExpanded == "false" && r[j].button.value.text == Expand
                 && !r[j].button.value.disabled && r[j].links == subs[j].links
  {
  }

  /**
   * As written, a page without a menu toggle gets no buttons, and the
   * handler loop then throws at line 156 on its first submenu item, which is
   * left with mouse listeners but no button.
   */
  lemma WiringWithoutToggleThrows(subs: seq<SubMenu>)
    requires Untouched(subs) && |subs| > 0
    ensures WireAsWritten(SetUp(false, subs)).0 == Threw(NoDropdownButton)
    ensures WireAsWritten(SetUp(false, subs)).1[0].wiring == MouseOnly
    ensures WireAsWritten(SetUp(false, subs)).1[0].button.None?
  {
    assert First(subs, Unbuttoned) == Some(0);
  }

  /**
   * Guarded, a page without a menu toggle is left inert: no item gets a
   * button or a listener, and no sequence of events changes any item.
   */
  lemma WithoutToggleInert(subs: seq<SubMenu>, events: seq<Event>)
    requires Untouched(subs)
    ensures Wire(SetUp(false, subs)) == subs
    ensures forall j :: 0 <= j < |subs| ==> Valid(subs[j]) && Run(subs[j], events) == subs[j]
  {
    forall j | 0 <= j < |subs|
      ensures Valid(subs[j]) && Run(subs[j], events) == subs[j]
    {
      UnwiredIgnoresEvents(subs[j], events);
    }
  }

  /** The guarded loop never throws where the written one does: with every button present the two agree. */
  lemma WireAgreesWithButtons(subs: seq<SubMenu>)
    requires forall j :: 0 <= j < |subs| ==> subs[j].button.Some?
    ensures WireAsWritten(subs) == (Completed, Wire(subs))
  {
  }
}
