# Dropdown navigation state machine (navigation.js)

This project models `navigation.js`, the script that drives a site header's
responsive menu. It does two things:

- The menu toggle (`.menu-toggle`) shows and hides the primary navigation.
- Every menu item that has a nested list gets an injected dropdown-toggle
  button. Its expansion state responds to the mouse, to clicks and to keyboard
  focus.

The DOM is reduced to the values the script reads and writes:

- the `hidden` classes of the toggle and of the navigation;
- `aria-describedby` on the link of the current item;
- per submenu item: the `toggled` class of its nested list, the button's
  `aria-expanded` attribute, its text and its `disabled` flag, the number of
  links in the nested list, the blur listeners on the last link, and which
  event listeners are registered.

Modules:

- `Util`: an `Option` type and `First`, which finds the first match in
  document order the way `querySelector` does.
- `Dropdown`: the state of one submenu item as a value. It holds the
  `dropDown` transition (`DropDown`), the effect of each event listener
  (`Step`) and of any sequence of events (`Run`), plus lemmas about them.
  The central invariant is `Consistent`: the `toggled` class is present
  exactly when `aria-expanded` is `"true"`, and exactly when the button reads
  "Collapse navigation list". Each of the two attributes holds one of its two
  values.
- `Menu`: the page-load steps as functions on the abstract DOM:
  `currentPage`, the button loop of `navSetup`, and the handler loop.
- `Navigation`: the class `SiteNavigation`. It holds the script's
  module-level state as fields and performs each function and listener as a
  method that updates those fields in place. Each method's `ensures` ties the
  new state to the `Dropdown`/`Menu` functions of the old state.

The model follows the code, not the comments. The comments at lines 144, 149
and 164 say "expand" and "collapse", as if these handlers forced a state.
Every handler in fact calls `dropDown`, which toggles:

- A mouse enter on a submenu that keyboard focus already opened closes it
  (`Dropdown.MouseEnterToggles`).
- Each focus of a parent link adds one more blur listener to the last link.
  Those listeners pile up, so the second keyboard pass through a submenu
  leaves it expanded (`Dropdown.SecondPassStaysExpanded`).

Browser event delivery is taken as an arbitrary sequence of events for each
submenu item, with one rule from HTML: a disabled button receives no click.

## Model

| member | source | states |
|---|---|---|
| `Util.First` | navigation.js:35 | the position found is the first element that matches, and none is found exactly when no element matches |
| `Dropdown.CreateButton` | navigation.js:67-78 | a new button has `aria-expanded` "false", the expand text and is enabled; on an untoggled list the item is collapsed and consistent afterwards; an item that already has a button is returned unchanged; class, links, listeners and wiring are kept |
| `Dropdown.DropDown` | navigation.js:94-107 | the class flips; `aria-expanded` ends "true" exactly when it was "false" and is "false" otherwise; the text ends as the collapse phrase exactly when it was the expand phrase; `disabled` equals `mouse`; links and listeners are untouched; consistency is kept |
| `Dropdown.DropDownTimes` | navigation.js:132-135 | `k` calls in a row flip the class `k` times (it ends toggled iff the parity of `k` says so), keep consistency, and leave `disabled == mouse` when `k > 0` |
| `Dropdown.Step` | navigation.js:142-171 | every listener keeps the submenu invariant (consistency, no listener before the button, blur listeners only on a non-empty list) |
| `Dropdown.Run` | navigation.js:142-171 | any sequence of events keeps the submenu invariant, so class, `aria-expanded` and text always agree |
| `Dropdown.DropDownTwice` | navigation.js:98-106 | two calls restore the class, and restore `aria-expanded` (and the text) exactly when it held one of its two values; `disabled` is the second call's `mouse` |
| `Dropdown.AgreementNeedsDomains` | navigation.js:102-103 | for every item whose class, `aria-expanded` and text agree but whose `aria-expanded` holds neither "true" nor "false", `dropDown` switches the class on, sets `aria-expanded` to "false" and leaves the item inconsistent |
| `Dropdown.MouseEnterToggles` | navigation.js:145-147 | mouse enter flips the expansion and disables the button; on an expanded submenu it collapses it |
| `Dropdown.EnterThenLeave` | navigation.js:145-152 | a mouse enter and leave pair restores class, `aria-expanded` and text, and leaves the button enabled |
| `Dropdown.HoverBlocksClick` | navigation.js:154-158 | after a mouse enter the button is disabled and a click changes nothing |
| `Dropdown.ClicksAreDropDowns` | navigation.js:154-158 | on a wired item with an enabled button, `k` clicks are exactly `k` calls of `dropDown(…, false)` |
| `Dropdown.IgnoredClicks` | navigation.js:154-158 | clicks on a disabled button, or on an item without the click listener, change nothing |
| `Dropdown.EvenClicksRestore` | navigation.js:154-158 | an even number of clicks on the toggle button returns the class, `aria-expanded` and the button text to their values before the clicks |
| `Dropdown.UnwiredIgnoresEvents` | navigation.js:142-171 | an item with no listeners is left unchanged by every sequence of events |
| `Dropdown.FocusStep` | navigation.js:161-169 | a parent-link focus on a non-empty submenu flips the class once and adds exactly one blur listener |
| `Dropdown.BlurStep` | navigation.js:132-135 | a blur of the last link flips the class once per registered listener and adds none |
| `Dropdown.FocusesPileUp` | navigation.js:114-137 | after `k` focuses the last link carries `k` more blur listeners and the class has flipped `k` times |
| `Dropdown.FocusesThenBlur` | navigation.js:162-169 | after `k` focuses, a single blur applies `dropDown(false)` `k` times, which returns the class to its state before the focuses |
| `Dropdown.OnePass` | navigation.js:132-135 | one focus-then-blur pass over an item with `m` listeners adds a listener and flips the class `m + 2` times |
| `Dropdown.TabThroughsExpanded` | navigation.js:161-169 | starting collapsed, after `n` keyboard passes the item carries `n` listeners and is expanded exactly when `n` mod 4 is 2 or 3 |
| `Dropdown.SecondPassStaysExpanded` | navigation.js:132-135 | the first keyboard pass collapses the submenu on leaving, and the second leaves it expanded |
| `Menu.MarkCurrent` | navigation.js:34-37 | `aria-describedby="current"` is set on the first current item only and every other item is unchanged; without a current item nothing changes |
| `Menu.CurrentPageOutcome` | navigation.js:34-38 | as written, `currentPage` throws `NoCurrentItem` (line 36) exactly when no item is current |
| `Menu.PageWithoutCurrentItem` | navigation.js:34-38 | a menu with no current item makes the written code throw, while the guarded code leaves the menu unchanged |
| `Menu.WithButtons` | navigation.js:80-82 | every item gets exactly one button; untouched items end collapsed, consistent and enabled; class, links, listeners and wiring of every item are kept, and an item that already had a button is unchanged |
| `Menu.SetUp` | navigation.js:44-84 | without a menu toggle the items are unchanged; with one every item has a button |
| `Menu.Wire` | navigation.js:142-171 | exactly the items with a button get all listeners, and nothing else about any item changes |
| `Menu.WireAsWritten` | navigation.js:142-158 | the written loop completes exactly when every item has a button; otherwise it throws `NoDropdownButton` (line 156) |
| `Menu.SetUpWithToggle` | navigation.js:67-82 | with a menu toggle, every item ends with one button: collapsed, `aria-expanded` "false", the expand text, enabled, all listeners present |
| `Menu.WiringWithoutToggleThrows` | navigation.js:47-49 | as written, with no menu toggle and at least one submenu item, the handler loop throws `NoDropdownButton` (line 156). The first item is left with mouse listeners but no button |
| `Menu.WithoutToggleInert` | navigation.js:47-49 | guarded, with no menu toggle no item gets a button or a listener, and no event sequence changes any item |
| `Menu.WireAgreesWithButtons` | navigation.js:142-171 | when every item has a button the written and the guarded loops agree |
| `Navigation.SiteNavigation.constructor` | navigation.js:7-12 | the page before the script runs: items unbuttoned, untoggled and without listeners |
| `Navigation.SiteNavigation.CurrentPage` | navigation.js:34-37 | the items become `Menu.MarkCurrent` of the old items |
| `Navigation.SiteNavigation.CurrentPageAsWritten` | navigation.js:34-37 | throws `NoCurrentItem` (line 36) when no item is current and changes nothing; otherwise marks the first current item |
| `Navigation.SiteNavigation.NavSetup` | navigation.js:44-84 | without a menu toggle nothing changes. Otherwise the toggle is shown, the navigation is hidden, `navToggle` is registered and every item gets a button |
| `Navigation.SiteNavigation.CreateButton` | navigation.js:67-78 | only the given item changes; it becomes `Dropdown.CreateButton` of what it was |
| `Navigation.SiteNavigation.NavToggle` | navigation.js:58-60 | the navigation's `hidden` class flips |
| `Navigation.SiteNavigation.MenuToggleClick` | navigation.js:62 | a click on the menu toggle flips `hidden` if and only if `navToggle` is registered |
| `Navigation.ClickMenuToggleTwice` | navigation.js:58-62 | two clicks on the menu toggle restore the navigation's `hidden` state and change nothing else |
| `Navigation.SiteNavigation.DropDown` | navigation.js:94-107 | only the given item changes, to `Dropdown.DropDown` of its old state; the invariant is kept |
| `Navigation.SiteNavigation.CollapseMonitor` | navigation.js:114-137 | requires a non-empty nested list; adds exactly one blur listener to that item and changes nothing else |
| `Navigation.SiteNavigation.WireHandlers` | navigation.js:142-171 | the items become `Menu.Wire` of the old items |
| `Navigation.SiteNavigation.WireHandlersAsWritten` | navigation.js:142-158 | outcome and items are `Menu.WireAsWritten` of the old items |
| `Navigation.SiteNavigation.MouseEnter` | navigation.js:145-147 | only item `i` changes, by the mouse-enter step; the invariant is kept |
| `Navigation.SiteNavigation.MouseLeave` | navigation.js:150-152 | only item `i` changes, by the mouse-leave step; the invariant is kept |
| `Navigation.SiteNavigation.ButtonClick` | navigation.js:155-158 | only item `i` changes, by the click step; the invariant is kept |
| `Navigation.SiteNavigation.ParentFocus` | navigation.js:161-169 | only item `i` changes, by the focus step; on an empty nested list the listener throws `EmptySubmenu` (line 120) after the toggle |
| `Navigation.SiteNavigation.LastLinkBlur` | navigation.js:132-135 | each registered blur listener applies `dropDown(false)` once, to item `i` only |
| `Navigation.SiteNavigation.Load` | navigation.js:38-171 | after the guarded page load the invariant holds, the current item is marked, and the toggle and navigation are set as `navSetup` says. The items have buttons and listeners exactly when a menu toggle exists |
| `Navigation.SiteNavigation.LoadAsWritten` | navigation.js:38-171 | as written, with no current item the script stops at line 36 with nothing else done; otherwise the current item is marked, the toggle, navigation and `navToggle` registration are set as `navSetup` sets them, and outcome and items are those of the written handler loop after `navSetup` |

## Left out

- The feature detection for passive listeners (lines 18-29). Its result is never used.
- The `console.log` and `console.info` diagnostics (lines 126 and 134), and the blur listeners on every child link (lines 122-128), which only log.
- The DOM tree itself. `querySelector`, `insertBefore` and `createTextNode` are abstracted to one record per submenu item. Each record keeps a count of its nested links.
- Nested submenus are modelled independently. When the last child of an outer list is an inner submenu item, one link (line 120 for the outer item, line 161 for the inner one) carries listeners of both items. Focusing it runs the inner item's focus listener, and leaving it runs the outer item's collapse listeners, so tabbing into the inner submenu toggles the outer one. The model does not connect the two items.
- A page without `#primary-menu ul` makes line 9 throw. A child item without a link makes line 123 or 162 throw. A current item without a child element makes line 36 throw. The model assumes these elements exist.
- The markup is assumed to carry no `toggled` class on any nested list before the script runs.
- Browser event delivery order, CSS and visual effects. Events are an arbitrary sequence per item.
- `Dropdown.DropDown`: requires a button, because `dropDown` dereferences it. In the written script a listener reaches an item without a button only after the line-156 TypeError (second finding). The model does not follow events after that point.

## Findings

| source | as written | input that shows it | evidently intended | confidence | as-written member | corrected member |
|---|---|---|---|---|---|---|
| navigation.js:34-38 | `currentPage` dereferences the result of `querySelector` without a null check. The TypeError at line 36 aborts the whole script, so no toggle, button or listener is ever set up | a menu in which no item has `current_page_item` or `current_menu_item` (a page that is not in the menu) | skip the annotation when there is no current item, as the comment at line 32 ("if any") says | high, not executed | `Menu.CurrentPageOutcome` | `Menu.MarkCurrent` |
| navigation.js:47-49 | `navSetup` returns early without a menu toggle, before any dropdown button is created. The handler loop at line 142 runs anyway, and line 156 calls `addEventListener` on the missing button, which throws. The first submenu item is left with mouse listeners. Each of their `dropDown` calls toggles the nested list's class (line 98) and then throws on the missing button (line 102), so hovering that item still opens and closes its submenu, without any `aria-expanded` or text to match | a page without `.menu-toggle` that has at least one submenu item | a page without a menu toggle leaves the dropdowns inert: no listeners, no errors | high, not executed | `Menu.WiringWithoutToggleThrows` | `Menu.WithoutToggleInert` |
