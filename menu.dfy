/** The one-button menu of the sender: a debounced button, a short press
    that steps through the items, a long press that activates the selected
    item, and a timeout that hides the menu. The clock reading `now` and
    the button level are inputs. */
module Menu {
  import opened Bytes
  import opened Wrappers

  const DEBOUNCE_MS: U32 := 20
  const LONG_PRESS_MS: U32 := 800
  const MENU_TIMEOUT_MS: U32 := 10000

  datatype MenuState = Hidden | Visible

  /** The six real items; the `Count` sentinel is `ITEM_COUNT`. */
  datatype MenuItem = Start | Stop | Run10min | Run20min | Run30min | Run90min

  const ITEM_COUNT: nat := 6

  function ItemCode(item: MenuItem): (r: nat)
    ensures r < ITEM_COUNT
  {
    match item
    case Start => 0
    case Stop => 1
    case Run10min => 2
    case Run20min => 3
    case Run30min => 4
    case Run90min => 5
  }

  /** `static_cast<MenuItem>(code)` for a code below `Count`. */
  function ItemOf(code: nat): (r: Option<MenuItem>)
    ensures r.Some? <==> code < ITEM_COUNT
    ensures r.Some? ==> ItemCode(r.value) == code
  {
    match code
    case 0 => Some(Start)
    case 1 => Some(Stop)
    case 2 => Some(Run10min)
    case 3 => Some(Run20min)
    case 4 => Some(Run30min)
    case 5 => Some(Run90min)
    case _ => None
  }

  lemma ItemCodeRoundTrip(item: MenuItem)
    ensures ItemOf(ItemCode(item)) == Some(item)
  {
  }

  /** The short-press step: the next item, wrapping after the last. */
  function NextItem(item: MenuItem): (r: MenuItem)
    ensures ItemCode(r) == (ItemCode(item) + 1) % ITEM_COUNT
  {
    match item
    case Start => Stop
    case Stop => Run10min
    case Run10min => Run20min
    case Run20min => Run30min
    case Run30min => Run90min
    case Run90min => Start
  }

  /** Six short presses come back to the same item. */
  lemma NextItemCycles(item: MenuItem)
    ensures NextItem(NextItem(NextItem(NextItem(NextItem(NextItem(item)))))) == item
  {
  }

  /** `menuItemToStr` on the numeric value of a `MenuItem`. */
  function MenuItemToStr(code: nat): (r: string)
    ensures code >= ITEM_COUNT <==> r == "UNKNOWN"
  {
    match ItemOf(code)
    case Some(Start) => "START"
    case Some(Stop) => "STOP"
    case Some(Run10min) => "RUN 10min"
    case Some(Run20min) => "RUN 20min"
    case Some(Run30min) => "RUN 30min"
    case Some(Run90min) => "RUN 90min"
    case None => "UNKNOWN"
  }

  /** Each real item has its own label. */
  lemma MenuItemLabelsDistinct(a: MenuItem, b: MenuItem)
    requires a != b
    ensures MenuItemToStr(ItemCode(a)) != MenuItemToStr(ItemCode(b))
  {
    ItemCodeRoundTrip(a);
    ItemCodeRoundTrip(b);
  }

  // ---------------------------------------------------------------------
  // The handler's fields as a value

  datatype Menu = Menu(
    buttonPin: Byte, currentState: MenuState, selectedItem: MenuItem,
    lastButtonMs: U32, buttonPressStartMs: U32, buttonWasPressed: bool,
    menuShowTimeMs: U32, itemActivated: bool)

  /** The field initialisers (`GPIO_NUM_0` is pin 0). */
  function InitialMenu(): (m: Menu)
    ensures m.currentState == Hidden && m.selectedItem == Start && !m.itemActivated
  {
    Menu(0, Hidden, Start, 0, 0, false, 0, false)
  }

  function BeginMenu(m: Menu, pin: Byte, now: U32): (r: Menu)
    ensures r == m.(buttonPin := pin, lastButtonMs := now)
  {
    m.(buttonPin := pin, lastButtonMs := now)
  }

  function ShowMenu(m: Menu, now: U32): (r: Menu)
    ensures r.currentState == Visible && r.selectedItem == Start && r.menuShowTimeMs == now
    ensures r == m.(currentState := r.currentState, selectedItem := r.selectedItem, menuShowTimeMs := r.menuShowTimeMs)
  {
    m.(currentState := Visible, menuShowTimeMs := now, selectedItem := Start)
  }

  function HideMenu(m: Menu): (r: Menu)
    ensures r.currentState == Hidden && r.menuShowTimeMs == 0
    ensures r == m.(currentState := r.currentState, menuShowTimeMs := r.menuShowTimeMs)
  {
    m.(currentState := Hidden, menuShowTimeMs := 0)
  }

  /** `isTimedOut`: a zero show time never times out. */
  predicate TimedOut(m: Menu, now: U32)
  {
    m.currentState == Visible && m.menuShowTimeMs != 0 && Elapsed(now, m.menuShowTimeMs) > MENU_TIMEOUT_MS
  }

  /** A button change that passed the debounce test. */
  function AcceptChange(m: Menu, now: U32, pressed: bool): Menu
  {
    var b := m.(buttonWasPressed := pressed, lastButtonMs := now);
    if pressed then
      var c := b.(buttonPressStartMs := now);
      if c.currentState == Hidden then ShowMenu(c, now) else c
    else if b.currentState == Visible then
      if Elapsed(now, b.buttonPressStartMs) >= LONG_PRESS_MS then HideMenu(b.(itemActivated := true))
      else b.(selectedItem := NextItem(b.selectedItem), menuShowTimeMs := now)
    else b
  }

  /** Whether a reading is a change the debounce lets through. */
  predicate Accepted(m: Menu, now: U32, pressed: bool)
  {
    pressed != m.buttonWasPressed && Elapsed(now, m.lastButtonMs) >= DEBOUNCE_MS
  }

  /** `update` with the button reading `pressed`. */
  function UpdateMenu(m: Menu, now: U32, pressed: bool): (r: Menu)
    ensures r.buttonPin == m.buttonPin
  {
    var a := if Accepted(m, now, pressed) then AcceptChange(m, now, pressed) else m;
    if a.currentState == Visible && TimedOut(a, now) then HideMenu(a) else a
  }

  /** `isItemActivated`: the selected item, once, and the flag cleared;
      otherwise the caller's `outItem` is left as it was. */
  function TakeActivation(m: Menu, outItem: MenuItem): (r: (Menu, bool, MenuItem))
    ensures !r.0.itemActivated
    ensures r.1 <==> m.itemActivated
    ensures r.2 == if m.itemActivated then m.selectedItem else outItem
    ensures r.0 == m.(itemActivated := false)
  {
    if m.itemActivated then (m.(itemActivated := false), true, m.selectedItem) else (m, false, outItem)
  }

  // ---------------------------------------------------------------------
  // Properties of `update`

  /** A change that comes too soon after the last accepted one is ignored:
      the result is the same as if the button had not changed. */
  lemma DebounceIgnoresEarlyChange(m: Menu, now: U32, pressed: bool)
    requires pressed != m.buttonWasPressed && Elapsed(now, m.lastButtonMs) < DEBOUNCE_MS
    ensures UpdateMenu(m, now, pressed) == UpdateMenu(m, now, m.buttonWasPressed)
    ensures UpdateMenu(m, now, pressed).buttonWasPressed == m.buttonWasPressed
    ensures UpdateMenu(m, now, pressed).lastButtonMs == m.lastButtonMs
  {
  }

  /** An accepted press on the hidden menu shows it with the first item
      selected and the timeout clock started. */
  lemma PressShowsMenu(m: Menu, now: U32)
    requires m.currentState == Hidden && Accepted(m, now, true)
    ensures var r := UpdateMenu(m, now, true);
      r.currentState == Visible && r.selectedItem == Start && r.menuShowTimeMs == now &&
      r.buttonPressStartMs == now && r.buttonWasPressed && r.itemActivated == m.itemActivated
  {
  }

  /** An accepted long release on the visible menu activates the selected
      item and hides the menu. */
  lemma LongReleaseActivates(m: Menu, now: U32)
    requires m.currentState == Visible && Accepted(m, now, false)
    requires Elapsed(now, m.buttonPressStartMs) >= LONG_PRESS_MS
    ensures var r := UpdateMenu(m, now, false);
      r.itemActivated && r.currentState == Hidden && r.menuShowTimeMs == 0 &&
      r.selectedItem == m.selectedItem && !r.buttonWasPressed
  {
  }

  /** An accepted short release on the visible menu selects the next item
      and restarts the timeout, and the menu stays open. */
  lemma ShortReleaseAdvances(m: Menu, now: U32)
    requires m.currentState == Visible && Accepted(m, now, false)
    requires Elapsed(now, m.buttonPressStartMs) < LONG_PRESS_MS
    ensures var r := UpdateMenu(m, now, false);
      r.selectedItem == NextItem(m.selectedItem) && r.menuShowTimeMs == now &&
      r.currentState == Visible && r.itemActivated == m.itemActivated
  {
  }

  /** A release while the menu is hidden only records the button level. */
  lemma HiddenReleaseIgnored(m: Menu, now: U32)
    requires m.currentState == Hidden && Accepted(m, now, false)
    ensures UpdateMenu(m, now, false) == m.(buttonWasPressed := false, lastButtonMs := now)
  {
  }

  /** An accepted press while the menu is visible records the level, the
      debounce time and the press start, and nothing else; the timeout
      check then applies to that state. */
  lemma VisiblePressOnlyTimes(m: Menu, now: U32)
    requires m.currentState == Visible && Accepted(m, now, true)
    ensures var b := m.(buttonWasPressed := true, lastButtonMs := now, buttonPressStartMs := now);
      UpdateMenu(m, now, true) == if TimedOut(b, now) then HideMenu(b) else b
  {
  }

  /** Without an accepted change, `update` only applies the timeout. */
  lemma TimeoutHides(m: Menu, now: U32, pressed: bool)
    requires !Accepted(m, now, pressed)
    ensures TimedOut(m, now) ==> UpdateMenu(m, now, pressed) == HideMenu(m)
    ensures !TimedOut(m, now) ==> UpdateMenu(m, now, pressed) == m
  {
  }

  /** Showing the menu at clock reading 0 leaves a show time of 0, which
      never times out: the menu then stays open until a button release. */
  lemma ShowAtZeroNeverTimesOut(m: Menu, later: U32)
    ensures !TimedOut(ShowMenu(m, 0), later)
  {
  }

  /** Holding the button on the hidden menu for a long press shows the
      menu and then activates its first item, Start. */
  lemma HeldPressOnHiddenMenuActivatesStart(m: Menu, t0: U32, t1: U32)
    requires m.currentState == Hidden && Accepted(m, t0, true)
    requires t0 != 0 && Elapsed(t1, t0) >= DEBOUNCE_MS
    requires LONG_PRESS_MS <= Elapsed(t1, t0) <= MENU_TIMEOUT_MS
    ensures var r := UpdateMenu(UpdateMenu(m, t0, true), t1, false);
      r.itemActivated && r.selectedItem == Start && r.currentState == Hidden
  {
    var a := UpdateMenu(m, t0, true);
    PressShowsMenu(m, t0);
    assert !TimedOut(a, t1);
    LongReleaseActivates(a, t1);
  }

  /** An activation is reported once. */
  lemma ActivationReportedOnce(m: Menu, outItem: MenuItem)
    ensures var r := TakeActivation(m, outItem);
      !TakeActivation(r.0, r.2).1 && TakeActivation(r.0, r.2).2 == r.2
  {
  }

  // ---------------------------------------------------------------------
  // The handler object

  class MenuHandler {
    var buttonPin: Byte
    var currentState: MenuState
    var selectedItem: MenuItem
    var lastButtonMs: U32
    var buttonPressStartMs: U32
    var buttonWasPressed: bool
    var menuShowTimeMs: U32
    var itemActivated: bool

    function Snapshot(): Menu
      reads this
    {
      Menu(buttonPin, currentState, selectedItem, lastButtonMs, buttonPressStartMs,
        buttonWasPressed, menuShowTimeMs, itemActivated)
    }

    constructor ()
      ensures Snapshot() == InitialMenu()
    {
      buttonPin := 0;
      currentState := Hidden;
      selectedItem := Start;
      lastButtonMs := 0;
      buttonPressStartMs := 0;
      buttonWasPressed := false;
      menuShowTimeMs := 0;
      itemActivated := false;
    }

    method Begin(pin: Byte, now: U32)
      modifies this
      ensures Snapshot() == BeginMenu(old(Snapshot()), pin, now)
    {
      buttonPin := pin;
      lastButtonMs := now;
    }

    method Show(now: U32)
      modifies this
      ensures Snapshot() == ShowMenu(old(Snapshot()), now)
    {
      currentState := Visible;
      menuShowTimeMs := now;
      selectedItem := Start;
    }

    method Hide()
      modifies this
      ensures Snapshot() == HideMenu(old(Snapshot()))
    {
      currentState := Hidden;
      menuShowTimeMs := 0;
    }

    predicate IsTimedOut(now: U32)
      reads this
    {
      TimedOut(Snapshot(), now)
    }

    method Update(now: U32, buttonPressed: bool)
      modifies this
      ensures Snapshot() == UpdateMenu(old(Snapshot()), now, buttonPressed)
    {
      if buttonPressed != buttonWasPressed {
        if Elapsed(now, lastButtonMs) >= DEBOUNCE_MS {
          buttonWasPressed := buttonPressed;
          lastButtonMs := now;
          if buttonWasPressed {
            buttonPressStartMs := now;
            if currentState == Hidden {
              Show(now);
            }
          } else {
            var pressDuration := Elapsed(now, buttonPressStartMs);
            if currentState == Visible {
              if pressDuration >= LONG_PRESS_MS {
                itemActivated := true;
                Hide();
              } else {
                selectedItem := ItemOf((ItemCode(selectedItem) + 1) % ITEM_COUNT).value;
                menuShowTimeMs := now;
              }
            }
          }
        }
      }
      if currentState == Visible {
        if IsTimedOut(now) {
          Hide();
        }
      }
    }

    method IsItemActivated(outItem: MenuItem) returns (activated: bool, item: MenuItem)
      modifies this`itemActivated
      ensures (Snapshot(), activated, item) == TakeActivation(old(Snapshot()), outItem)
    {
      if itemActivated {
        item := selectedItem;
        itemActivated := false;
        return true, item;
      }
      return false, outItem;
    }
  }
}
