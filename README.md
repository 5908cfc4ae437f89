# FIT terminal menus in Dafny

FIT builds text menus for a terminal. A **menu** has a name, an optional
header and footer, and an **option registry** of labelled entries. An entry's
action can be one of three things:

- nothing (a null entry);
- a **handler**, which returns one of `SUCCESS`, `GO_UP`, `RETURN_HOME` or
  `EXIT_MENU`;
- a **submenu**.

A root menu owns a **navigation panel**, the breadcrumb shown on top of every
screen. `start()` runs the root's loop. Each pass of the loop does four things:

1. It clears the terminal.
2. It shows the breadcrumb, header, numbered listing, footer and prompt.
3. It reads a line.
4. It acts on the option the line selects.

Entering a submenu pushes the submenu's name on the breadcrumb and runs its
loop nested inside the parent's loop. The result that comes back decides how
far the loops unwind:

- `GO_UP` goes up one level.
- `RETURN_HOME` goes back to the root.
- `EXIT_MENU` ends every loop.

The project has seven modules:

- `Common` (common.dfy): option and result types, the error datatype that
  replaces the exception classes, and the four handler results.
- `Decimal` (decimal.dfy): `Integer.toString` and `Integer.parseInt` on
  ASCII decimals in the 32-bit range.
- `Options` (options.dfy): the `OptionsManager` class, two parallel `seq`
  fields updated in place.
- `Navigation` (navigation.dfy): the `NavigationPanel` class. The string
  functions `Pop` and `RootOf` say what `goUpMenu` and `goToRootMenu` leave
  behind.
- `Terminal` (terminal.dfy): the terminal device. It holds a script of lines
  still to be typed (`None` is a null line) and a log of what was asked of
  it: `Clear`, `Shown(text)` and `Read`.
- `Menus` (menu.dfy): the `Menu` class and a pure description of its loop.
  - Methods: setters, registration, and `Start`/`OptionSelected` with the
    methods they call.
  - `View` is the part of a menu the loop reads.
  - `Run` is a whole loop. `Step` is one pass. `Reply` is the read and
    validate part of a pass. `Chosen` acts on the selected option, and
    `Settle` handles a returned result.
  - Every method of the loop is proved to change the device, the breadcrumb
    and the session's menus exactly as `Run` says.
- `MenuProofs` (menu_proofs.dfy): what `Run` guarantees over a whole
  session.

## Model

| member | source | states |
|---|---|---|
| Options.OptionsManager.constructor | fit/src/main/java/com/mattepu/OptionsManager.java:13-17 | a new registry has two empty lists |
| Options.OptionsManager.AddOptionAt | fit/src/main/java/com/mattepu/OptionsManager.java:19-39 | a null label is stored as `""`; an index outside the list appends and returns the old size; an index inside inserts there and returns it; both lists change together, so they stay the same length |
| Options.OptionsManager.AddOption | fit/src/main/java/com/mattepu/OptionsManager.java:41-44 | the two-argument form always appends, returning the old size |
| Options.OptionsManager.RemoveOption | fit/src/main/java/com/mattepu/OptionsManager.java:46-57 | fails with `InvalidIndex(index)` exactly when the index is outside the list, changing nothing; otherwise removes exactly that entry from both lists |
| Options.OptionsManager.GetOptionAt | fit/src/main/java/com/mattepu/OptionsManager.java:59-69 | fails with `InvalidIndex(index)` exactly when out of range; otherwise returns the stored action (a null entry included) and changes nothing |
| Options.OptionsManager.ToString | fit/src/main/java/com/mattepu/OptionsManager.java:71-84 | the loop builds exactly `Listing(names)` |
| Options.Placement | fit/src/main/java/com/mattepu/OptionsManager.java:26-37 | the position an add uses lies within the list or at its end |
| Options.InsertAtShifts | fit/src/main/java/com/mattepu/OptionsManager.java:32-37 | inserting at `i` puts the entry at `i`, keeps earlier entries and moves later ones up by one |
| Options.RemoveAtShifts | fit/src/main/java/com/mattepu/OptionsManager.java:54-55 | removing at `i` keeps earlier entries and moves later ones down by one; putting the entry back restores the list |
| Options.ListingEmptyIff | fit/src/main/java/com/mattepu/OptionsManager.java:71-84 | the listing is empty exactly when there are no labels |
| Options.ListingAppend | fit/src/main/java/com/mattepu/OptionsManager.java:75-82 | adding a label extends the listing by a newline and `"n : label"`, earlier lines unchanged |
| Options.ListingNewlines | fit/src/main/java/com/mattepu/OptionsManager.java:77-81 | the listing has one line break between entries and none at the end, besides those inside the labels |
| Options.DigitsHaveNoNewline | fit/src/main/java/com/mattepu/OptionsManager.java:77 | a rendered number holds no line break |
| Decimal.NatToString | fit/src/main/java/com/mattepu/OptionsManager.java:77 | `Integer.toString` of a non-negative number is a non-empty string of digits without a leading zero |
| Decimal.DigitsOfNatToString | fit/src/main/java/com/mattepu/OptionsManager.java:77 | reading the digits of a rendered number gives the number back |
| Decimal.ParseInt | fit/src/main/java/com/mattepu/Menu.java:278 | a parsed value lies in the 32-bit `int` range |
| Decimal.ParseIntOfNatToString | fit/src/main/java/com/mattepu/Menu.java:278 | parsing a rendered number up to `Integer.MAX_VALUE` gives it back |
| Decimal.ParseIntOfNegated | fit/src/main/java/com/mattepu/Menu.java:278 | a minus sign before the digits parses to the negated value, down to `Integer.MIN_VALUE` |
| Decimal.ParseIntRejectsLetters | fit/src/main/java/com/mattepu/Menu.java:278 | a line that starts with anything but a digit or a sign does not parse |
| Navigation.NavigationPanel.constructor | fit/src/main/java/com/mattepu/NavigationPanel.java:5-6 | a new panel has an empty breadcrumb and the separator `"/"` |
| Navigation.NavigationPanel.SetSeparator | fit/src/main/java/com/mattepu/NavigationPanel.java:8-14 | a null or empty separator is ignored, any other replaces it; the breadcrumb is untouched |
| Navigation.NavigationPanel.SetRootMenu | fit/src/main/java/com/mattepu/NavigationPanel.java:16-28 | on a fresh panel (empty breadcrumb, separator still `/`), a null name changes nothing and a name becomes the whole breadcrumb |
| Navigation.NavigationPanel.ChangeToSubMenu | fit/src/main/java/com/mattepu/NavigationPanel.java:30-37 | appends the separator and the name, a null name taken as `""` |
| Navigation.NavigationPanel.GoUpMenu | fit/src/main/java/com/mattepu/NavigationPanel.java:39-46 | the breadcrumb becomes `Pop` of the old one |
| Navigation.NavigationPanel.GoToRootMenu | fit/src/main/java/com/mattepu/NavigationPanel.java:48-55 | the breadcrumb becomes `RootOf` of the old one |
| Navigation.NavigationPanel.ToString | fit/src/main/java/com/mattepu/NavigationPanel.java:57-61 | returns the breadcrumb verbatim |
| Navigation.IndexOf | fit/src/main/java/com/mattepu/NavigationPanel.java:50-52 | the first occurrence of the separator, or -1 when there is none |
| Navigation.LastIndexOf | fit/src/main/java/com/mattepu/NavigationPanel.java:41-43 | the last occurrence of the separator, or -1 when there is none |
| Navigation.PopAfterPush | fit/src/main/java/com/mattepu/NavigationPanel.java:30-46 | pushing a name that holds no separator and then going up restores the breadcrumb |
| Navigation.PopAtRoot | fit/src/main/java/com/mattepu/NavigationPanel.java:39-46 | going up from a breadcrumb without a separator changes nothing |
| Navigation.RootOfProperties | fit/src/main/java/com/mattepu/NavigationPanel.java:48-55 | going to the root leaves no separator and a prefix of the old breadcrumb, and a second call changes nothing |
| Navigation.TrailStart | fit/src/main/java/com/mattepu/NavigationPanel.java:30-37 | a breadcrumb with a pushed name starts with the root and a separator |
| Navigation.PopTrail | fit/src/main/java/com/mattepu/NavigationPanel.java:39-46 | going up from root, names and one clean name gives root and names |
| Navigation.RootOfTrail | fit/src/main/java/com/mattepu/NavigationPanel.java:48-55 | from a separator-free root, any number of pushes and then going to the root gives the root |
| Navigation.CleanSingleCharacter | fit/src/main/java/com/mattepu/NavigationPanel.java:8-14 | with a one-character separator, a name is clean exactly when it does not hold that character |
| Navigation.PopNeedsCleanSegment | fit/src/main/java/com/mattepu/NavigationPanel.java:39-46 | with the separator `"aa"`, pushing `"a"` onto `"d"` and going up gives `"da"`, not `"d"` |
| Terminal.Device.ClearDisplay | fit/src/main/java/com/mattepu/IODevice.java:9 | logs one `Clear` |
| Terminal.Device.Display | fit/src/main/java/com/mattepu/IODevice.java:5 | logs the text shown |
| Terminal.Device.AcceptInput | fit/src/main/java/com/mattepu/IODevice.java:7 | returns the next scripted line, drops it and logs a `Read` |
| Menus.Menu.constructor | fit/src/main/java/com/mattepu/Menu.java:19-31 | a null name becomes `""`; there is no header, footer or device and the registry is empty; a root gets a breadcrumb holding its name with separator `"/"`, other menus none |
| Menus.Menu.NotRoot | fit/src/main/java/com/mattepu/Menu.java:33-36 | the one-argument constructor makes a menu that is not a root |
| Menus.Toggle | fit/src/main/java/com/mattepu/Menu.java:38-52 | whether a value is set or not, the outcome is the non-empty value given, or unset |
| Menus.Menu.SetHeader | fit/src/main/java/com/mattepu/Menu.java:38-52 | the header becomes `Toggle(old header, value)`: a non-empty value sets it, `""` clears it once set and is ignored while unset |
| Menus.Menu.SetFooter | fit/src/main/java/com/mattepu/Menu.java:118-132 | the same for the footer |
| Menus.ToggleAsWritten | fit/src/main/java/com/mattepu/Menu.java:38-52 | the setter exactly as written, with the null dereference made explicit |
| MenuProofs.ToggleAsWrittenThrows | fit/src/main/java/com/mattepu/Menu.java:49 | setting null while a value is set throws |
| MenuProofs.ToggleAsWrittenAgrees | fit/src/main/java/com/mattepu/Menu.java:38-52 | in every other case the code as written gives `Toggle`'s outcome |
| Menus.Menu.AddOptionAt | fit/src/main/java/com/mattepu/Menu.java:54-57 | an add handed to the registry, with its placement and contents |
| Menus.Menu.AddOption | fit/src/main/java/com/mattepu/Menu.java:59-62 | appends to the registry and returns the old size |
| Menus.Menu.AddLabelledSubMenu | fit/src/main/java/com/mattepu/Menu.java:64-78 | a root child fails with `RootMenuAsSubMenu`, leaving the registry unchanged; a null child is stored as a null entry; otherwise the child is placed as an add places it |
| Menus.Menu.AddSubMenuAt | fit/src/main/java/com/mattepu/Menu.java:85-93 | the same, labelled with the child's own name (`""` for a null child) |
| Menus.Menu.AddSubMenu | fit/src/main/java/com/mattepu/Menu.java:80-83 | the same, always appending |
| Menus.Menu.GetSubMenu | fit/src/main/java/com/mattepu/Menu.java:95-103 | out of range fails with `InvalidIndex`; an entry that is not a submenu (null included) fails with `SubMenuDoesNotExist`; otherwise returns that very child |
| Menus.Menu.RemoveOptionOrSubMenu | fit/src/main/java/com/mattepu/Menu.java:105-116 | true exactly when `0 <= at < size`, and then that entry is gone; false leaves the registry unchanged |
| Menus.Menu.SetIODevice | fit/src/main/java/com/mattepu/Menu.java:134-137 | stores the device |
| Menus.Menu.Start | fit/src/main/java/com/mattepu/Menu.java:139-153 | a menu that is not a root fails with `ActionOnlyForRootMenu` before the device is looked at; a root without a device fails with `IODeviceNotSet`; both change nothing; otherwise the loop runs as `Run` says |
| Menus.IsValidInput | fit/src/main/java/com/mattepu/Menu.java:274-286 | for any registry of realistic size, a line is valid exactly when it parses to a number from 1 to the number of options (the `int` wrap-around of `n - 1` cannot make one valid) |
| Menus.Menu.IsRoot | fit/src/main/java/com/mattepu/Menu.java:155-158 | true exactly for a menu built as a root |
| Menus.Menu.NonEmptyHeader | fit/src/main/java/com/mattepu/Menu.java:243-250 | empty exactly when the header is unset or empty; otherwise a line break followed by the header |
| Menus.Menu.NonEmptyFooter | fit/src/main/java/com/mattepu/Menu.java:252-259 | the same for the footer |
| Menus.Menu.HasAtLeastOneOption | fit/src/main/java/com/mattepu/Menu.java:261-272 | true exactly when looking up entry 0 succeeds, that is when the registry is not empty |
| Menus.Menu.IsValidInputString | fit/src/main/java/com/mattepu/Menu.java:274-286 | true exactly when the line parses and the looked-up position `n - 1` is in the registry, as `IsValidInput` says |
| Menus.Settle | fit/src/main/java/com/mattepu/Menu.java:198-227 | handling a result reads no line and consumes no input; it never stops with `GO_UP`; at a root it only goes round again or stops with `EXIT_MENU` |
| Menus.Run | fit/src/main/java/com/mattepu/Menu.java:160-241 | reference definition of the loop; a session never consumes more lines than it is given |
| Menus.Step | fit/src/main/java/com/mattepu/Menu.java:163-238 | reference definition of one pass; a pass that goes round again consumes at least one line, one that finishes consumes no more than it is given |
| Menus.Reply | fit/src/main/java/com/mattepu/Menu.java:182-232 | reference definition of reading and validating a line; the same bound on consumed lines |
| Menus.Chosen | fit/src/main/java/com/mattepu/Menu.java:186-227 | reference definition of what a chosen option does; it never consumes more lines than it is given |
| Menus.Menu.Compose | fit/src/main/java/com/mattepu/Menu.java:167-180 | the screen built piece by piece is `ScreenText` of the menu and the breadcrumb |
| Menus.Menu.Show | fit/src/main/java/com/mattepu/Menu.java:165-181 | clears the terminal, then shows the screen, and reports whether the registry has an entry |
| Menus.Menu.Respond | fit/src/main/java/com/mattepu/Menu.java:182-189 | reading, validating and looking up a line follow `Reply` |
| Menus.Menu.Select | fit/src/main/java/com/mattepu/Menu.java:186-197 | a null entry goes round again; a handler's result is settled; a submenu is entered; all as `Chosen` says |
| Menus.Menu.Enter | fit/src/main/java/com/mattepu/Menu.java:190-197 | the child gets the parent's device and the same breadcrumb object, with the child's own name pushed (not the option label), and its loop runs as `Run` says |
| Menus.Menu.Descend | fit/src/main/java/com/mattepu/Menu.java:190-227 | the child's result is settled at the parent as `Chosen` says |
| Menus.Menu.Conclude | fit/src/main/java/com/mattepu/Menu.java:198-227 | the unwind rules, as `Settle` says |
| Menus.Menu.Round | fit/src/main/java/com/mattepu/Menu.java:165-238 | one pass of the loop changes the terminal and the breadcrumb as `Step` says |
| Menus.Menu.OptionSelected | fit/src/main/java/com/mattepu/Menu.java:160-241 | the whole loop returns, consumes input, leaves the breadcrumb and logs events exactly as `Run` says |
| MenuProofs.StepUnfolds | fit/src/main/java/com/mattepu/Menu.java:163-238 | a pass either finishes with `SUCCESS` when there are no options, finishes when no line is left, goes round again after a line that selects nothing, or ends as the chosen option says |
| MenuProofs.ScreenLayout | fit/src/main/java/com/mattepu/Menu.java:167-181 | the screen starts with the breadcrumb; with options it ends with a line break and `Enter your choice : `; without, it is only the breadcrumb, header and footer |
| MenuProofs.RunStartsWithScreen | fit/src/main/java/com/mattepu/Menu.java:165-181 | every loop starts by clearing the terminal and showing its screen |
| MenuProofs.NoOptionsShowsOnce | fit/src/main/java/com/mattepu/Menu.java:234-238 | a menu without options shows its screen once, without the prompt, reads nothing, returns `SUCCESS` and leaves the breadcrumb untouched |
| MenuProofs.InvalidLineRedisplays | fit/src/main/java/com/mattepu/Menu.java:229-232 | a null, non-numeric or out-of-range line is read, and the same screen is cleared and shown again |
| MenuProofs.NullActionRedisplays | fit/src/main/java/com/mattepu/Menu.java:186-189 | selecting a null entry reads the line and shows the same screen again |
| MenuProofs.ShownNumberSelects | fit/src/main/java/com/mattepu/Menu.java:185 | typing the number the listing shows before entry `i` selects entry `i` |
| MenuProofs.ChosenEnds | fit/src/main/java/com/mattepu/Menu.java:198-227 | an option never finishes a pass with `GO_UP`; at a root, only with `EXIT_MENU` or running out of input |
| MenuProofs.RunEnds | fit/src/main/java/com/mattepu/Menu.java:198-227 | a loop never returns `GO_UP`; a root loop with options ends only by `EXIT_MENU` (or when the input runs out) |
| MenuProofs.ChosenExitClears | fit/src/main/java/com/mattepu/Menu.java:202-208 | an exit from a root clears the terminal last |
| MenuProofs.RootExitClears | fit/src/main/java/com/mattepu/Menu.java:202-208 | a root loop that ends by `EXIT_MENU` clears the terminal last |
| MenuProofs.ExitUnwinds | fit/src/main/java/com/mattepu/Menu.java:202-208 | `EXIT_MENU` from a submenu is passed on at once with the breadcrumb untouched; only a root adds one more clear |
| MenuProofs.ReadsConcat | fit/src/main/java/com/mattepu/Menu.java:182 | reads in joined event lists add up |
| MenuProofs.ReadsNone | fit/src/main/java/com/mattepu/Menu.java:182 | a list of events without a read counts none |
| MenuProofs.ChosenReads | fit/src/main/java/com/mattepu/Menu.java:182-227 | an option consumes exactly as many lines as it reads, nested loops included |
| MenuProofs.StepReads | fit/src/main/java/com/mattepu/Menu.java:165-238 | a pass consumes exactly as many lines as it reads |
| MenuProofs.RunReads | fit/src/main/java/com/mattepu/Menu.java:160-241 | a whole loop, nested submenus included, consumes exactly as many lines as it reads |
| MenuProofs.SettleKeepsTrail | fit/src/main/java/com/mattepu/Menu.java:198-227 | at depth `path`, continuing keeps the breadcrumb; `GO_UP` leaves it one level up; `RETURN_HOME` leaves only the root |
| MenuProofs.ChosenKeepsTrail | fit/src/main/java/com/mattepu/Menu.java:190-227 | the same for any chosen option, the submenu it enters included |
| MenuProofs.StepKeepsTrail | fit/src/main/java/com/mattepu/Menu.java:163-238 | while a loop runs, each pass gives back the breadcrumb it started with: the root name followed by the separator and name of each active submenu |
| MenuProofs.RunKeepsTrail | fit/src/main/java/com/mattepu/Menu.java:160-241 | if every submenu has options and no name holds the separator, a loop that returns `SUCCESS` leaves the breadcrumb one level up, and one that returns `RETURN_HOME` leaves only the root, at every level on the way up |
| MenuProofs.OptionlessSubmenuKeepsSegment | fit/src/main/java/com/mattepu/Menu.java:194 | a submenu without options returns `SUCCESS` without popping its name, so its parent, the root included, goes on with that name still on the breadcrumb |

## Left out

- Terminal I/O: the device is an abstract script of typed lines plus a log
  of requests. The example console device and the demo application
  (`InputOutputDevice.java`, `App.java`) are not part of this model.
- The exception classes become the `MenuError` datatype.
  `DuplicateRootMenuException` is never thrown, so it has no counterpart.
- Handler bodies are foreign code. A handler is modelled as a fixed result
  per registry entry, `Handler(result)` (the result possibly null). A
  stateful handler that returns different results on different selections
  is not modelled, and no side effect of a handler is modelled.
- `IOption.java` and `OptionActionResult.java` are not part of this model.
  They are replaced by the `Action` and `ActionResult` datatypes.
- Navigation.NavigationPanel.SetRootMenu: only the empty-breadcrumb case is
  modelled. The only caller is the root constructor, on a new panel. The
  regular-expression `split` and rejoin on a non-empty breadcrumb are not
  modelled. The code always calls `split`, which reads the separator as a
  regular expression and throws `PatternSyntaxException` for a malformed
  one such as `"*"` or `"("`, even on an empty breadcrumb. The model
  requires the separator `"/"`, which a new panel has when the root
  constructor (Menu.java:28-29) calls this.
- Decimal.ParseInt: only ASCII digits with an optional sign are accepted.
  Unicode digits are not modelled. A value outside the `int` range does not
  parse, as `parseInt` throws for it.
- The loop of the root never ends by itself. The model bounds it by the
  finite script of typed lines. When the script runs out, the loop ends with
  `InputExhausted`, and every enclosing loop passes that end on. This is a
  modelling artefact, not a behaviour of the library.
- Menus.Menu.SetHeader and Menus.Menu.SetFooter: a null value while a value
  is set clears it, where the code throws (see Findings).
- Menus.Menu.Start and the loop methods take a ghost snapshot of the menus
  the session can enter. They require every submenu reachable from the root
  to be in it, with its registry lists of equal length.
- The loop is proved against the pure description `Run` over that snapshot.
  Handlers cannot change the menus while the loop runs, because their bodies
  are not modelled.
- Some test assertions in `NavigationPanelTest.java` disagree with the code:
  - lines 42-45 expect `"->"` after `setSeperator(null)`;
  - lines 110, 133 and 160 repeat the first submenu's name.

  The model follows the code.

## Findings

| source | as written | input that shows it | evidently intended | confidence | as-written member | corrected member |
|---|---|---|---|---|---|---|
| fit/src/main/java/com/mattepu/Menu.java:49 (and :129 for the footer) | while a header is set, `header.equals("")` is called on the new value, even when that value is null | `setHeader("x")` then `setHeader(null)` throws `NullPointerException` | null clears the header, as `""` does; while unset, null is already ignored like `""` | not executed; high that it throws, medium on the intent | Menus.ToggleAsWritten, MenuProofs.ToggleAsWrittenThrows | Menus.Toggle (used by Menus.Menu.SetHeader and Menus.Menu.SetFooter) |
