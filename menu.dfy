/** A menu node: a name, an optional header and footer, an option registry,
    and, while it is the active menu of a session, the terminal and the
    breadcrumb handed down from the root. Choosing an option runs a handler
    or enters a submenu, whose loop runs nested inside its parent's; the
    result that comes back decides how many levels unwind. */
module Menus {
  import opened Common
  import opened Decimal
  import opened Options
  import opened Navigation
  import opened Terminal

  /** The last line of every screen that asks for a choice. */
  const Prompt := "Enter your choice : "

  /** What an option does when chosen: nothing (a null action), run a
      handler, or enter a submenu. A handler's body is not part of this
      model; it is represented by the result it returns, null included. */
  datatype Action = NoAction | Handler(result: Option<ActionResult>) | Sub(menu: Menu)

  /** How a menu loop ended: it returned a result, or the script of typed
      lines ran out while it waited for input. */
  datatype LoopEnd = Returned(result: ActionResult) | InputExhausted

  /** A whole run of one menu loop: how it ended, the lines left unread,
      the breadcrumb it left behind, and what it asked of the terminal. */
  datatype Session = Session(end: LoopEnd, rest: seq<Option<string>>, trail: string, events: seq<Event>)

  /** A session preceded by some terminal events. */
  function Then(pre: seq<Event>, s: Session): Session {
    s.(events := pre + s.events)
  }

  /** Java's `n - 1` on an `int`, which wraps at `Integer.MIN_VALUE`. */
  function JavaPred(n: int): int {
    if n == IntMin then IntMax else n - 1
  }

  /** The value a header or footer takes when set to `value` and the old
      value does not matter: a non-empty string, or unset. */
  function NonEmpty(value: Option<string>): Option<string> {
    if value.Some? && value.value != "" then value else None
  }

  /** `setHeader`/`setFooter` exactly as written. `None` stands for the
      NullPointerException raised when the new value is null while a value
      is set, because the code calls `equals` on the argument. */
  function ToggleAsWritten(current: Option<string>, value: Option<string>): Option<Option<string>> {
    if current.None? then
      Some(if value.Some? && value.value != "" then value else current)
    else if value.None? then None
    else Some(if value.value == "" then None else value)
  }

  /** `setHeader`/`setFooter` with a null value while set taken as
      clearing. Whether set or not, the outcome is then the non-empty
      value given, or unset. */
  function Toggle(current: Option<string>, value: Option<string>): (r: Option<string>)
    ensures r == NonEmpty(value)
  {
    if current.None? then
      (if value.Some? && value.value != "" then value else current)
    else if value.None? || value.value == "" then None
    else value
  }


  /** A header or footer on a line of its own, when set and not empty. */
  function Line(s: Option<string>): string {
    if s.Some? && s.value != "" then "\n" + s.value else ""
  }

  /** The position a typed line asks for: `Integer.parseInt(line) - 1`,
      or `None` when parsing throws. */
  function InputIndex(line: Option<string>): Option<int> {
    match ParseInt(line)
    case Some(n) => Some(JavaPred(n))
    case None => None
  }

  /** A typed line is a valid choice among `size` options: it parses, and
      the position it asks for is looked up without an error. */
  predicate IsValidInput(line: Option<string>, size: nat): (valid: bool)
    ensures size <= IntMax ==>
              (valid <==> ParseInt(line).Some? && 1 <= ParseInt(line).value <= size)
  {
    var k := InputIndex(line);
    k.Some? && 0 <= k.value < size
  }

  /** What the menu loop reads of a menu: whether it is the root, its name,
      its header and footer, and its registry. */
  datatype View = View(isRoot: bool, name: string, header: Option<string>, footer: Option<string>,
                       names: seq<string>, actions: seq<Action>)

  /** The text one pass of the loop of a menu sends to the terminal: the
      breadcrumb, the header, the listing, the footer and the prompt, the
      listing and prompt only when there is at least one option. */
  function ScreenText(v: View, trail: string): string {
    trail + Line(v.header)
      + (if |v.names| > 0 then "\n" + Listing(v.names) else "")
      + Line(v.footer)
      + (if |v.names| > 0 then "\n" + Prompt else "")
  }

  /** Every menu in `views` keeps its two registry lists in step, and every
      submenu it can enter is in `views` too. */
  ghost predicate Closed(views: map<Menu, View>) {
    forall m :: m in views ==>
      |views[m].names| == |views[m].actions| &&
      forall a :: a in views[m].actions && a.Sub? ==> a.menu in views
  }

  /** The registries of a set of menus. */
  ghost function Registries(U: set<Menu>): set<OptionsManager<Action>> {
    set m | m in U :: m.options
  }

  /** `views` is what its menus hold now. */
  ghost predicate Mirrors(views: map<Menu, View>)
    reads views.Keys`header, views.Keys`footer, Registries(views.Keys)
  {
    forall m :: m in views ==> views[m] == m.Snapshot()
  }

  class Menu {
    const menuName: string
    const isRootMenu: bool
    var header: Option<string>
    var footer: Option<string>
    const options: OptionsManager<Action>
    var ioDevice: Device?
    var navigation: NavigationPanel?

    /** `Menu(name, isRoot)`: a null name becomes empty; only a root gets
        a breadcrumb of its own, seeded with its name. */
    constructor (name: Option<string>, isRoot: bool)
      ensures menuName == OrEmpty(name) && isRootMenu == isRoot
      ensures header == None && footer == None && ioDevice == null
      ensures fresh(options) && options.Valid() && options.names == [] && options.actions == []
      ensures isRoot ==> navigation != null && fresh(navigation) && navigation.Valid() &&
                         navigation.display == OrEmpty(name) && navigation.separator == "/"
      ensures !isRoot ==> navigation == null
    {
      menuName := OrEmpty(name);
      isRootMenu := isRoot;
      header := None;
      footer := None;
      options := new OptionsManager();
      ioDevice := null;
      navigation := null;
      new;
      if isRoot {
        var panel := new NavigationPanel();
        panel.SetRootMenu(name);
        navigation := panel;
      }
    }

    /** `Menu(name)`: a menu that is not a root. */
    constructor NotRoot(name: Option<string>)
      ensures menuName == OrEmpty(name) && !isRootMenu
      ensures header == None && footer == None && ioDevice == null && navigation == null
      ensures fresh(options) && options.Valid() && options.names == [] && options.actions == []
    {
      menuName := OrEmpty(name);
      isRootMenu := false;
      header := None;
      footer := None;
      options := new OptionsManager();
      ioDevice := null;
      navigation := null;
    }

    /** `isRoot()`. */
    function IsRoot(): (root: bool)
      ensures root <==> isRootMenu
    {
      isRootMenu
    }

    /** `setHeader`, with a null value while a header is set taken as
        clearing it. */
    method SetHeader(value: Option<string>)
      modifies this`header
      ensures header == Toggle(old(header), value)
    {
      if header.None? {
        if value.Some? && value.value != "" {
          header := value;
        }
      } else {
        header := if value.None? || value.value == "" then None else value;
      }
    }

    /** `setFooter`, with a null value while a footer is set taken as
        clearing it. */
    method SetFooter(value: Option<string>)
      modifies this`footer
      ensures footer == Toggle(old(footer), value)
    {
      if footer.None? {
        if value.Some? && value.value != "" {
          footer := value;
        }
      } else {
        footer := if value.None? || value.value == "" then None else value;
      }
    }

    /** `setIODevice`. */
    method SetIODevice(device: Device?)
      modifies this`ioDevice
      ensures ioDevice == device
    {
      ioDevice := device;
    }

    /** `addOption(name, option, atIndex)`: handed to the registry. */
    method AddOptionAt(name: Option<string>, action: Action, atIndex: int) returns (addedAt: int)
      requires options.Valid()
      modifies options
      ensures options.Valid()
      ensures addedAt == Placement(|old(options.names)|, atIndex)
      ensures options.names == InsertAt(old(options.names), addedAt, OrEmpty(name))
      ensures options.actions == InsertAt(old(options.actions), addedAt, action)
    {
      addedAt := options.AddOptionAt(name, action, atIndex);
    }

    /** `addOption(name, option)`: appends. */
    method AddOption(name: Option<string>, action: Action) returns (addedAt: int)
      requires options.Valid()
      modifies options
      ensures options.Valid()
      ensures addedAt == |old(options.names)|
      ensures options.names == old(options.names) + [OrEmpty(name)]
      ensures options.actions == old(options.actions) + [action]
    {
      addedAt := options.AddOption(name, action);
    }

    /** `addSubMenu(name, subMenu, atIndex)`: a root menu is refused and
        nothing is added; a null submenu is stored as an action that does
        nothing; otherwise the submenu is placed as `addOption` would. */
    method AddLabelledSubMenu(name: Option<string>, subMenu: Menu?, atIndex: int) returns (r: Result<int, MenuError>)
      requires options.Valid()
      modifies options
      ensures options.Valid()
      ensures subMenu != null && subMenu.isRootMenu ==>
                r == Err(RootMenuAsSubMenu) &&
                options.names == old(options.names) && options.actions == old(options.actions)
      ensures subMenu == null || !subMenu.isRootMenu ==>
                var action := if subMenu == null then NoAction else Sub(subMenu);
                r == Ok(Placement(|old(options.names)|, atIndex)) &&
                options.names == InsertAt(old(options.names), r.value, OrEmpty(name)) &&
                options.actions == InsertAt(old(options.actions), r.value, action)
    {
      if subMenu == null {
        var addedAt := options.AddOptionAt(name, NoAction, atIndex);
        r := Ok(addedAt);
      } else if subMenu.isRootMenu {
        r := Err(RootMenuAsSubMenu);
      } else {
        var addedAt := options.AddOptionAt(name, Sub(subMenu), atIndex);
        r := Ok(addedAt);
      }
    }

    /** `addSubMenu(subMenu, atIndex)`: labelled with the submenu's own
        name (empty for a null submenu). */
    method AddSubMenuAt(subMenu: Menu?, atIndex: int) returns (r: Result<int, MenuError>)
      requires options.Valid()
      modifies options
      ensures options.Valid()
      ensures subMenu != null && subMenu.isRootMenu ==>
                r == Err(RootMenuAsSubMenu) &&
                options.names == old(options.names) && options.actions == old(options.actions)
      ensures subMenu == null || !subMenu.isRootMenu ==>
                var action := if subMenu == null then NoAction else Sub(subMenu);
                var caption := if subMenu == null then "" else subMenu.menuName;
                r == Ok(Placement(|old(options.names)|, atIndex)) &&
                options.names == InsertAt(old(options.names), r.value, caption) &&
                options.actions == InsertAt(old(options.actions), r.value, action)
    {
      var subMenuName := "";
      if subMenu != null {
        subMenuName := subMenu.menuName;
      }
      r := AddLabelledSubMenu(Some(subMenuName), subMenu, atIndex);
    }

    /** `addSubMenu(subMenu)`: labelled with the submenu's own name and
        appended. */
    method AddSubMenu(subMenu: Menu?) returns (r: Result<int, MenuError>)
      requires options.Valid()
      modifies options
      ensures options.Valid()
      ensures subMenu != null && subMenu.isRootMenu ==>
                r == Err(RootMenuAsSubMenu) &&
                options.names == old(options.names) && options.actions == old(options.actions)
      ensures subMenu == null || !subMenu.isRootMenu ==>
                var action := if subMenu == null then NoAction else Sub(subMenu);
                var caption := if subMenu == null then "" else subMenu.menuName;
                r == Ok(|old(options.names)|) &&
                options.names == old(options.names) + [caption] &&
                options.actions == old(options.actions) + [action]
    {
      r := AddSubMenuAt(subMenu, -1);
    }

    /** `getSubMenu(atIndex)`: `InvalidIndex` outside the registry,
        `SubMenuDoesNotExist` when the entry is not a submenu (a null entry
        included), otherwise the very submenu stored there. */
    method GetSubMenu(atIndex: int) returns (r: Result<Menu, MenuError>)
      requires options.Valid()
      ensures atIndex < 0 || atIndex >= |options.names| ==> r == Err(InvalidIndex(atIndex))
      ensures 0 <= atIndex < |options.names| && !options.actions[atIndex].Sub? ==> r == Err(SubMenuDoesNotExist)
      ensures 0 <= atIndex < |options.names| && options.actions[atIndex].Sub? ==> r == Ok(options.actions[atIndex].menu)
    {
      var option := options.GetOptionAt(atIndex);
      if option.Err? {
        return Err(option.error);
      }
      if !option.value.Sub? {
        return Err(SubMenuDoesNotExist);
      }
      r := Ok(option.value.menu);
    }

    /** `removeOptionOrSubMenu(at)`: true exactly when `at` is a position
        of the registry, in which case that entry is gone. */
    method RemoveOptionOrSubMenu(at: int) returns (removed: bool)
      requires options.Valid()
      modifies options
      ensures options.Valid()
      ensures removed <==> 0 <= at < |old(options.names)|
      ensures removed ==> options.names == RemoveAt(old(options.names), at) &&
                          options.actions == RemoveAt(old(options.actions), at)
      ensures !removed ==> options.names == old(options.names) && options.actions == old(options.actions)
    {
      var outcome := options.RemoveOption(at);
      removed := outcome.Pass?;
    }


    /** `nonEmptyHeader()`: nothing when the header is unset or empty,
        otherwise the header on a line of its own. */
    function NonEmptyHeader(): (text: string)
      reads this`header
      ensures text == "" <==> header.None? || header.value == ""
      ensures text != "" ==> text == "\n" + header.value
    {
      Line(header)
    }

    /** `nonEmptyFooter()`: nothing when the footer is unset or empty,
        otherwise the footer on a line of its own. */
    function NonEmptyFooter(): (text: string)
      reads this`footer
      ensures text == "" <==> footer.None? || footer.value == ""
      ensures text != "" ==> text == "\n" + footer.value
    {
      Line(footer)
    }

    /** `hasAtleastOneOption()`: whether the lookup of position 0
        succeeds. */
    method HasAtLeastOneOption() returns (has: bool)
      requires options.Valid()
      ensures has <==> |options.names| > 0
    {
      var first := options.GetOptionAt(0);
      has := first.Ok?;
    }

    /** `isValidInputString(line)`: whether the line parses and the
        position it asks for is looked up without an error. */
    method IsValidInputString(line: Option<string>) returns (valid: bool)
      requires options.Valid()
      ensures valid == IsValidInput(line, |options.names|)
    {
      var n := ParseInt(line);
      if n.None? {
        return false;
      }
      var got := options.GetOptionAt(JavaPred(n.value));
      valid := got.Ok?;
    }

    /** What the menu loop reads of this menu now. */
    ghost function Snapshot(): View
      reads this`header, this`footer, options
    {
      View(isRootMenu, menuName, header, footer, options.names, options.actions)
    }

    /** The screen of one pass, built piece by piece as the loop does. */
    method Compose() returns (text: string)
      requires navigation != null && options.Valid()
      ensures text == ScreenText(Snapshot(), navigation.display)
    {
      text := navigation.ToString();
      text := text + NonEmptyHeader();
      var hasAtLeastOneOption := HasAtLeastOneOption();
      var listed := "";
      if hasAtLeastOneOption {
        var listing := options.ToString();
        listed := "\n" + listing;
      }
      text := text + listed;
      text := text + NonEmptyFooter();
      var prompt := "";
      if hasAtLeastOneOption {
        prompt := "\n" + Prompt;
      }
      text := text + prompt;
    }

    /** The start of every pass: clear the terminal and show the screen.
        Whether there is an option to choose is returned alongside. */
    method Show() returns (toDisplay: string, hasAtLeastOneOption: bool)
      requires ioDevice != null && navigation != null && options.Valid()
      modifies ioDevice`log
      ensures toDisplay == ScreenText(Snapshot(), navigation.display)
      ensures hasAtLeastOneOption <==> |options.names| > 0
      ensures ioDevice.log == old(ioDevice.log) + [Clear, Shown(toDisplay)]
    {
      ioDevice.ClearDisplay();
      toDisplay := Compose();
      hasAtLeastOneOption := HasAtLeastOneOption();
      ioDevice.Display(toDisplay);
    }

    /** What the loop does with the result of the chosen option: the tail
        of one pass of `optionSelected()`, as `Settle` describes it. */
    method Conclude(result: Option<ActionResult>) returns (stop: Option<LoopEnd>)
      requires ioDevice != null && navigation != null && navigation.Valid()
      modifies ioDevice`log, navigation`display
      ensures var t := Settle(isRootMenu, navigation.separator, result, ioDevice.script, old(navigation.display));
              stop == t.Stop() && navigation.display == t.Trail() && ioDevice.log == old(ioDevice.log) + t.Events()
    {
      if result == Some(Success) {
        stop := None;
      } else if result == Some(ExitMenu) {
        if isRootMenu {
          ioDevice.ClearDisplay();
        }
        stop := Some(Returned(ExitMenu));
      } else if result == Some(GoUp) {
        if isRootMenu {
          return None;
        }
        navigation.GoUpMenu();
        stop := Some(Returned(Success));
      } else if result == Some(ReturnHome) {
        if isRootMenu {
          return None;
        }
        navigation.GoToRootMenu();
        stop := Some(Returned(ReturnHome));
      } else {
        stop := None;
      }
    }

    /** Entering a submenu: it gets this menu's terminal and breadcrumb,
        with its name pushed on the breadcrumb, and its loop runs as `Run`
        describes. */
    method Enter(child: Menu, ghost views: map<Menu, View>) returns (r: LoopEnd)
      requires Closed(views) && Mirrors(views) && child in views
      requires ioDevice != null && navigation != null && navigation.Valid()
      modifies ioDevice`script, ioDevice`log, navigation`display, views.Keys`ioDevice, views.Keys`navigation
      decreases |ioDevice.script|, 4
      ensures Mirrors(views) && ioDevice == old(ioDevice) && navigation == old(navigation)
      ensures child.ioDevice == ioDevice && child.navigation == navigation
      ensures forall m :: m in views ==> (m.ioDevice == old(m.ioDevice) || m.ioDevice == ioDevice) &&
                                         (m.navigation == old(m.navigation) || m.navigation == navigation)
      ensures var s := Run(views, child, navigation.separator, old(ioDevice.script),
                           old(navigation.display) + navigation.separator + views[child].name);
              r == s.end && ioDevice.script == s.rest && navigation.display == s.trail &&
              ioDevice.log == old(ioDevice.log) + s.events
    {
      ghost var entered := navigation.display + navigation.separator + views[child].name;
      assert views[child].name == child.menuName;
      child.SetIODevice(ioDevice);
      navigation.ChangeToSubMenu(Some(child.menuName));
      child.navigation := navigation;
      assert navigation.display == entered;
      r := child.OptionSelected(views);
    }

    /** Choosing a submenu: run its loop and, unless the lines ran out
        there, do what the result it returns asks. */
    method Descend(child: Menu, ghost views: map<Menu, View>) returns (stop: Option<LoopEnd>)
      requires Closed(views) && Mirrors(views) && this in views && Sub(child) in views[this].actions
      requires ioDevice != null && navigation != null && navigation.Valid()
      modifies ioDevice`script, ioDevice`log, navigation`display, views.Keys`ioDevice, views.Keys`navigation
      decreases |ioDevice.script|, 5
      ensures Mirrors(views) && ioDevice == old(ioDevice) && navigation == old(navigation)
      ensures forall m :: m in views ==> (m.ioDevice == old(m.ioDevice) || m.ioDevice == ioDevice) &&
                                         (m.navigation == old(m.navigation) || m.navigation == navigation)
      ensures var t := Chosen(views, this, navigation.separator, Sub(child), old(ioDevice.script), old(navigation.display));
              stop == t.Stop() && ioDevice.script == t.Rest() && navigation.display == t.Trail() &&
              ioDevice.log == old(ioDevice.log) + t.Events()
    {
      ghost var sep := navigation.separator;
      ghost var log0 := ioDevice.log;
      ghost var inner := Run(views, child, sep, ioDevice.script, navigation.display + sep + views[child].name);
      var childEnd := Enter(child, views);
      if childEnd.InputExhausted? {
        stop := Some(InputExhausted);
      } else {
        stop := Conclude(Some(childEnd.result));
        Associative(log0, inner.events, Settle(isRootMenu, sep, Some(childEnd.result), inner.rest, inner.trail).Events());
      }
    }

    /** Acting on the option the typed line picked: nothing for a null
        action; for a handler, what its result asks; for a submenu, hand it
        the terminal and the breadcrumb with its name pushed, run its loop,
        and do what the result it returns asks. This is `Chosen`. */
    method Select(option: Action, ghost views: map<Menu, View>) returns (stop: Option<LoopEnd>)
      requires Closed(views) && Mirrors(views) && this in views && option in options.actions
      requires ioDevice != null && navigation != null && navigation.Valid()
      modifies ioDevice`script, ioDevice`log, navigation`display, views.Keys`ioDevice, views.Keys`navigation
      decreases |ioDevice.script|, 6
      ensures Mirrors(views) && ioDevice == old(ioDevice) && navigation == old(navigation)
      ensures forall m :: m in views ==> (m.ioDevice == old(m.ioDevice) || m.ioDevice == ioDevice) &&
                                         (m.navigation == old(m.navigation) || m.navigation == navigation)
      ensures var t := Chosen(views, this, navigation.separator, option, old(ioDevice.script), old(navigation.display));
              stop == t.Stop() && ioDevice.script == t.Rest() && navigation.display == t.Trail() &&
              ioDevice.log == old(ioDevice.log) + t.Events()
    {
      ghost var sep := navigation.separator;
      match option {
        case NoAction =>
          stop := None;
        case Handler(res) =>
          stop := Conclude(res);
        case Sub(child) =>
          assert option in views[this].actions;
          stop := Descend(child, views);
      }
    }

    /** The rest of a pass once the screen is shown: read a line and, if
        it picks an option, act on it. This is `Reply`. */
    method Respond(ghost views: map<Menu, View>) returns (stop: Option<LoopEnd>)
      requires Closed(views) && Mirrors(views) && this in views && |options.names| > 0
      requires ioDevice != null && navigation != null && navigation.Valid()
      modifies ioDevice`script, ioDevice`log, navigation`display, views.Keys`ioDevice, views.Keys`navigation
      decreases |ioDevice.script|, 1
      ensures Mirrors(views) && ioDevice == old(ioDevice) && navigation == old(navigation)
      ensures forall m :: m in views ==> (m.ioDevice == old(m.ioDevice) || m.ioDevice == ioDevice) &&
                                         (m.navigation == old(m.navigation) || m.navigation == navigation)
      ensures var t := Reply(views, this, navigation.separator, old(ioDevice.script), old(navigation.display));
              stop == t.Stop() && ioDevice.script == t.Rest() && navigation.display == t.Trail() &&
              ioDevice.log == old(ioDevice.log) + t.Events()
    {
      ghost var sep := navigation.separator;
      ghost var inp := ioDevice.script;
      ghost var trail := navigation.display;
      ghost var log0 := ioDevice.log;
      var input := ioDevice.AcceptInput();
      if input.EndOfScript? {
        stop := Some(InputExhausted);
      } else {
        var valid := IsValidInputString(input.line);
        if !valid {
          return None;
        }
        var got := options.GetOptionAt(InputIndex(input.line).value);
        var option := got.value;
        stop := Select(option, views);
        Associative(log0, [Read], Chosen(views, this, sep, option, inp[1..], trail).Events());
      }
    }

    /** One pass of the loop of `optionSelected()`: clear, show the screen,
        and unless there is no option, read a line and act on it. `None`
        means the loop goes round again; `Some(e)` means it ends with `e`.
        This is `Step`. */
    method Round(ghost views: map<Menu, View>) returns (stop: Option<LoopEnd>)
      requires Closed(views) && Mirrors(views) && this in views
      requires ioDevice != null && navigation != null && navigation.Valid()
      modifies ioDevice`script, ioDevice`log, navigation`display, views.Keys`ioDevice, views.Keys`navigation
      decreases |ioDevice.script|, 2
      ensures Mirrors(views) && ioDevice == old(ioDevice) && navigation == old(navigation)
      ensures forall m :: m in views ==> (m.ioDevice == old(m.ioDevice) || m.ioDevice == ioDevice) &&
                                         (m.navigation == old(m.navigation) || m.navigation == navigation)
      ensures var p := Step(views, this, navigation.separator, old(ioDevice.script), old(navigation.display));
              stop == p.Stop() && ioDevice.script == p.Rest() && navigation.display == p.Trail() &&
              ioDevice.log == old(ioDevice.log) + p.Events()
    {
      ghost var sep := navigation.separator;
      ghost var inp := ioDevice.script;
      ghost var trail := navigation.display;
      ghost var log0 := ioDevice.log;
      var toDisplay, hasAtLeastOneOption := Show();
      if hasAtLeastOneOption {
        stop := Respond(views);
        Associative(log0, [Clear, Shown(toDisplay)], Reply(views, this, sep, inp, trail).Events());
      } else {
        stop := Some(Returned(Success));
      }
    }

    /** `optionSelected()`: the menu loop. Pass after pass, it clears the
        screen, shows the breadcrumb, header, options, footer and prompt,
        reads a line and acts on it, until a result sends control back to
        its caller. The whole run is the one `Run` describes. */
    method OptionSelected(ghost views: map<Menu, View>) returns (r: LoopEnd)
      requires Closed(views) && Mirrors(views) && this in views
      requires ioDevice != null && navigation != null && navigation.Valid()
      modifies ioDevice`script, ioDevice`log, navigation`display, views.Keys`ioDevice, views.Keys`navigation
      decreases |ioDevice.script|, 3
      ensures Mirrors(views) && ioDevice == old(ioDevice) && navigation == old(navigation)
      ensures forall m :: m in views ==> (m.ioDevice == old(m.ioDevice) || m.ioDevice == ioDevice) &&
                                         (m.navigation == old(m.navigation) || m.navigation == navigation)
      ensures var s := Run(views, this, navigation.separator, old(ioDevice.script), old(navigation.display));
              r == s.end && ioDevice.script == s.rest && navigation.display == s.trail &&
              ioDevice.log == old(ioDevice.log) + s.events
    {
      var dev := ioDevice;
      var nav := navigation;
      ghost var sep := nav.separator;
      ghost var total := Run(views, this, sep, dev.script, nav.display);
      ghost var log0 := dev.log;
      ghost var done: seq<Event> := [];
      while true
        invariant Mirrors(views)
        invariant ioDevice == dev && navigation == nav && nav.separator == sep && |sep| > 0
        invariant forall m :: m in views ==> (m.ioDevice == old(m.ioDevice) || m.ioDevice == dev) &&
                                             (m.navigation == old(m.navigation) || m.navigation == nav)
        invariant |dev.script| <= |old(dev.script)|
        invariant dev.log == log0 + done
        invariant var now := Run(views, this, sep, dev.script, nav.display);
                  now.end == total.end && now.rest == total.rest && now.trail == total.trail &&
                  total.events == done + now.events
        decreases |dev.script|
      {
        ghost var p := Step(views, this, sep, dev.script, nav.display);
        var stop := Round(views);
        Associative(log0, done, p.Events());
        if stop.Some? {
          return stop.value;
        }
        Associative(done, p.Events(), Run(views, this, sep, dev.script, nav.display).events);
        done := done + p.Events();
      }
    }

    /** `start()`: only a root may start, and only with a terminal set;
        the root check comes first. Otherwise the root's loop runs. */
    method Start(ghost views: map<Menu, View>) returns (r: Result<LoopEnd, MenuError>)
      requires Closed(views) && Mirrors(views) && this in views
      requires isRootMenu ==> navigation != null && navigation.Valid()
      modifies ({ioDevice} - {null})`script, ({ioDevice} - {null})`log, ({navigation} - {null})`display
      modifies views.Keys`ioDevice, views.Keys`navigation
      ensures !isRootMenu ==> r == Err(ActionOnlyForRootMenu)
      ensures isRootMenu && old(ioDevice) == null ==> r == Err(IODeviceNotSet)
      ensures r.Err? ==> unchanged(views.Keys) && (ioDevice != null ==> unchanged(ioDevice)) &&
                         (navigation != null ==> unchanged(navigation))
      ensures isRootMenu && old(ioDevice) != null ==>
                ioDevice == old(ioDevice) && navigation == old(navigation) && navigation != null &&
                navigation.separator == old(navigation.separator) &&
                var s := Run(views, this, navigation.separator, old(ioDevice.script), old(navigation.display));
                r == Ok(s.end) && ioDevice.script == s.rest && navigation.display == s.trail &&
                ioDevice.log == old(ioDevice.log) + s.events
    {
      if isRootMenu {
        if ioDevice == null {
          return Err(IODeviceNotSet);
        }
        var end := OptionSelected(views);
        r := Ok(end);
      } else {
        r := Err(ActionOnlyForRootMenu);
      }
    }
  }

  /** The outcome of one pass of a menu loop: go round again with the lines
      left, the breadcrumb left and the terminal events of the pass, or
      finish the loop with a whole session. */
  datatype Turn = Again(rest: seq<Option<string>>, trail: string, events: seq<Event>) | Finish(session: Session)
  {
    /** What the loop returns after this pass: nothing yet, or its end. */
    function Stop(): Option<LoopEnd> {
      if Again? then None else Some(session.end)
    }
    function Rest(): seq<Option<string>> {
      if Again? then rest else session.rest
    }
    function Trail(): string {
      if Again? then trail else session.trail
    }
    function Events(): seq<Event> {
      if Again? then events else session.events
    }
  }

  /** A pass preceded by some terminal events. */
  function Prepend(pre: seq<Event>, t: Turn): (r: Turn)
    ensures r.Stop() == t.Stop() && r.Rest() == t.Rest() && r.Trail() == t.Trail()
    ensures r.Events() == pre + t.Events()
  {
    match t
    case Again(rest, trail, events) => Again(rest, trail, pre + events)
    case Finish(s) => Finish(Then(pre, s))
  }

  /** One pass of the loop of `m` on the lines `inp`, with the shared
      breadcrumb at `trail`, separator `sep`, and `views` holding every menu
      it can enter: clear and show the screen; with no options, finish
      there with `Success`; otherwise carry on as `Reply` says. */
  ghost function Step(views: map<Menu, View>, m: Menu, sep: string, inp: seq<Option<string>>, trail: string): (t: Turn)
    requires |sep| > 0 && Closed(views) && m in views
    ensures t.Again? ==> |t.rest| < |inp|
    ensures t.Finish? ==> |t.session.rest| <= |inp|
    decreases |inp|, 1
  {
    var v := views[m];
    Prepend([Clear, Shown(ScreenText(v, trail))],
      if |v.names| == 0 then Finish(Session(Returned(Success), inp, trail, []))
      else Reply(views, m, sep, inp, trail))
  }

  /** The rest of a pass of the loop of `m` once the screen is shown: with
      no line left, the session cannot go on; otherwise a line is read. A
      line that does not parse or that asks for a position outside the
      registry goes round again; otherwise the option at that position is
      acted on as `Chosen` says. */
  ghost function Reply(views: map<Menu, View>, m: Menu, sep: string, inp: seq<Option<string>>, trail: string): (t: Turn)
    requires |sep| > 0 && Closed(views) && m in views && |views[m].names| > 0
    ensures t.Again? ==> |t.rest| < |inp|
    ensures t.Finish? ==> |t.session.rest| <= |inp|
    decreases |inp|, 0
  {
    var v := views[m];
    if inp == [] then Finish(Session(InputExhausted, inp, trail, []))
    else if !IsValidInput(inp[0], |v.names|) then Again(inp[1..], trail, [Read])
    else Prepend([Read], Chosen(views, m, sep, v.actions[InputIndex(inp[0]).value], inp[1..], trail))
  }

  /** What the loop of `m` does with the option picked, on the lines `inp`
      left after the choice: a null action goes round again; a handler's
      result is settled by `Settle`; a submenu runs its own loop with its
      name pushed on the breadcrumb, and unless the lines ran out there, the
      result it returns is settled by `Settle`. */
  ghost function Chosen(views: map<Menu, View>, m: Menu, sep: string, option: Action,
                        inp: seq<Option<string>>, trail: string): (t: Turn)
    requires |sep| > 0 && Closed(views) && m in views && option in views[m].actions
    ensures |t.Rest()| <= |inp|
    decreases |inp|, 3
  {
    match option
    case NoAction => Again(inp, trail, [])
    case Handler(res) => Settle(views[m].isRoot, sep, res, inp, trail)
    case Sub(child) =>
      var inner := Run(views, child, sep, inp, trail + sep + views[child].name);
      if inner.end.InputExhausted? then Finish(inner)
      else Prepend(inner.events, Settle(views[m].isRoot, sep, Some(inner.end.result), inner.rest, inner.trail))
  }

  /** What a loop does with the result of a chosen option: a null result
      or `Success` goes round again; `ExitMenu` finishes at once, the root
      clearing the screen once more; `GoUp` and `ReturnHome` go round again
      at the root, while any other menu goes up one level (finishing with
      `Success`) or cuts the breadcrumb back to the root (finishing with
      `ReturnHome`). No line is read. */
  function Settle(isRoot: bool, sep: string, res: Option<ActionResult>,
                  inp: seq<Option<string>>, trail: string): (t: Turn)
    requires |sep| > 0
    ensures t.Rest() == inp && Read !in t.Events()
    ensures t.Stop() != Some(Returned(GoUp))
    ensures isRoot ==> t.Stop() == None || t.Stop() == Some(Returned(ExitMenu))
  {
    match res
    case None => Again(inp, trail, [])
    case Some(Success) => Again(inp, trail, [])
    case Some(ExitMenu) => Finish(Session(Returned(ExitMenu), inp, trail, if isRoot then [Clear] else []))
    case Some(GoUp) =>
      if isRoot then Again(inp, trail, [])
      else Finish(Session(Returned(Success), inp, Pop(trail, sep), []))
    case Some(ReturnHome) =>
      if isRoot then Again(inp, trail, [])
      else Finish(Session(Returned(ReturnHome), inp, RootOf(trail, sep), []))
  }

  /** The whole loop of `m`: pass after pass until one finishes. */
  ghost function Run(views: map<Menu, View>, m: Menu, sep: string, inp: seq<Option<string>>, trail: string): (s: Session)
    requires |sep| > 0 && Closed(views) && m in views
    ensures |s.rest| <= |inp|
    decreases |inp|, 2
  {
    match Step(views, m, sep, inp, trail)
    case Again(rest, trail', events) => Then(events, Run(views, m, sep, rest, trail'))
    case Finish(s) => s
  }

  lemma Associative<T>(a: seq<T>, b: seq<T>, c: seq<T>)
    ensures a + (b + c) == (a + b) + c
  {
  }
}
