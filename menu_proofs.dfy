/** What the menu loop guarantees over a whole session: which results can
    come back, what is left of the breadcrumb, how many lines are read, and
    what the terminal is shown. Every lemma is about the pure loop `Run`,
    which the `Menu` methods are proved to follow. */
module MenuProofs {
  import opened Common
  import opened Decimal
  import opened Options
  import opened Navigation
  import opened Terminal
  import opened Menus

  // ---------------------------------------------------------------------
  // Setting a header or footer

  /** As written, setting a null header or footer while one is set throws:
      the code calls `equals` on the null argument. */
  lemma ToggleAsWrittenThrows(current: string)
    ensures ToggleAsWritten(Some(current), None) == None
  {
  }

  /** Apart from that one case, the code as written does what `Toggle`
      does: the result is the non-empty value given, or unset. */
  lemma ToggleAsWrittenAgrees(current: Option<string>, value: Option<string>)
    ensures ToggleAsWritten(current, value).Some? <==> current.None? || value.Some?
    ensures ToggleAsWritten(current, value).Some? ==> ToggleAsWritten(current, value).value == Toggle(current, value)
  {
  }

  // ---------------------------------------------------------------------
  // One pass, unfolded

  /** The four ways a pass can go: a menu without options finishes after
      showing its screen; with options, a pass finishes when no line is
      left, goes round again after a line that selects nothing, and
      otherwise ends as the chosen option's `Chosen` says, after the screen
      and the read. */
  lemma StepUnfolds(views: map<Menu, View>, m: Menu, sep: string, inp: seq<Option<string>>, trail: string)
    requires |sep| > 0 && Closed(views) && m in views
    ensures var v := views[m];
            var t := Step(views, m, sep, inp, trail);
            var pre := [Clear, Shown(ScreenText(v, trail))];
            (|v.names| == 0 ==> t == Finish(Session(Returned(Success), inp, trail, pre))) &&
            (|v.names| > 0 && inp == [] ==> t == Finish(Session(InputExhausted, inp, trail, pre))) &&
            (|v.names| > 0 && inp != [] && !IsValidInput(inp[0], |v.names|) ==>
               t == Again(inp[1..], trail, pre + [Read])) &&
            (|v.names| > 0 && inp != [] && IsValidInput(inp[0], |v.names|) ==>
               var c := Chosen(views, m, sep, v.actions[InputIndex(inp[0]).value], inp[1..], trail);
               t.Stop() == c.Stop() && t.Rest() == c.Rest() && t.Trail() == c.Trail() &&
               t.Events() == pre + [Read] + c.Events())
  {
    var v := views[m];
    var pre := [Clear, Shown(ScreenText(v, trail))];
    if |v.names| > 0 && inp != [] && IsValidInput(inp[0], |v.names|) {
      var c := Chosen(views, m, sep, v.actions[InputIndex(inp[0]).value], inp[1..], trail);
      Associative(pre, [Read], c.Events());
    }
  }

  // ---------------------------------------------------------------------
  // The screen

  /** The screen starts with the breadcrumb. With options, it ends with a
      line break and the prompt; without, it is only the breadcrumb, header
      and footer. */
  lemma ScreenLayout(v: View, trail: string)
    ensures trail <= ScreenText(v, trail)
    ensures |v.names| > 0 ==>
              |ScreenText(v, trail)| >= |Prompt| + 1 &&
              ScreenText(v, trail)[|ScreenText(v, trail)| - |Prompt| - 1..] == "\n" + Prompt
    ensures |v.names| == 0 ==> ScreenText(v, trail) == trail + Line(v.header) + Line(v.footer)
  {
    var h := Line(v.header);
    var l := if |v.names| > 0 then "\n" + Listing(v.names) else "";
    var f := Line(v.footer);
    var p := if |v.names| > 0 then "\n" + Prompt else "";
    var s := ScreenText(v, trail);
    assert s == trail + h + l + f + p;
    Associative(trail, h, l);
    Associative(trail, h + l, f);
    Associative(trail, h + l + f, p);
    assert s == trail + (h + l + f + p);
    assert trail <= s;
    if |v.names| > 0 {
      var front := trail + h + l + f;
      assert s == front + p;
      assert s[|front|..] == p;
    }
  }

  /** Every loop starts by clearing the terminal and showing its screen
      with the breadcrumb it was entered with. */
  lemma RunStartsWithScreen(views: map<Menu, View>, m: Menu, sep: string, inp: seq<Option<string>>, trail: string)
    requires |sep| > 0 && Closed(views) && m in views
    ensures var s := Run(views, m, sep, inp, trail);
            |s.events| >= 2 && s.events[..2] == [Clear, Shown(ScreenText(views[m], trail))]
  {
    var t := Step(views, m, sep, inp, trail);
    var pre := [Clear, Shown(ScreenText(views[m], trail))];
    assert t.Events()[..2] == pre;
    match t
    case Again(rest, trail', events) =>
      var s := Then(events, Run(views, m, sep, rest, trail'));
      assert s.events[..2] == events[..2];
    case Finish(s) =>
  }

  /** A menu without options shows its screen once, reads nothing, leaves
      the breadcrumb as it was and returns `Success`. */
  lemma NoOptionsShowsOnce(views: map<Menu, View>, m: Menu, sep: string, inp: seq<Option<string>>, trail: string)
    requires |sep| > 0 && Closed(views) && m in views && |views[m].names| == 0
    ensures Run(views, m, sep, inp, trail) ==
              Session(Returned(Success), inp, trail, [Clear, Shown(trail + Line(views[m].header) + Line(views[m].footer))])
  {
    ScreenLayout(views[m], trail);
    StepUnfolds(views, m, sep, inp, trail);
  }

  /** A line that does not select an option is read and dropped; the loop
      then clears and shows the very same screen again. */
  lemma InvalidLineRedisplays(views: map<Menu, View>, m: Menu, sep: string, inp: seq<Option<string>>, trail: string)
    requires |sep| > 0 && Closed(views) && m in views && |views[m].names| > 0
    requires inp != [] && !IsValidInput(inp[0], |views[m].names|)
    ensures var screen := Shown(ScreenText(views[m], trail));
            var next := Run(views, m, sep, inp[1..], trail);
            Run(views, m, sep, inp, trail) == Then([Clear, screen, Read], next) &&
            |next.events| >= 2 && next.events[..2] == [Clear, screen]
  {
    StepUnfolds(views, m, sep, inp, trail);
    RunStartsWithScreen(views, m, sep, inp[1..], trail);
  }

  /** Choosing an option whose action is null reads the line and shows the
      same screen again, with nothing else happening. */
  lemma NullActionRedisplays(views: map<Menu, View>, m: Menu, sep: string, inp: seq<Option<string>>, trail: string)
    requires |sep| > 0 && Closed(views) && m in views && |views[m].names| > 0
    requires inp != [] && IsValidInput(inp[0], |views[m].names|)
    requires views[m].actions[InputIndex(inp[0]).value] == NoAction
    ensures var screen := Shown(ScreenText(views[m], trail));
            var next := Run(views, m, sep, inp[1..], trail);
            Run(views, m, sep, inp, trail) == Then([Clear, screen, Read], next) &&
            |next.events| >= 2 && next.events[..2] == [Clear, screen]
  {
    var screen := Shown(ScreenText(views[m], trail));
    StepUnfolds(views, m, sep, inp, trail);
    assert Step(views, m, sep, inp, trail) == Again(inp[1..], trail, [Clear, screen] + [Read] + []);
    RunStartsWithScreen(views, m, sep, inp[1..], trail);
  }

  /** The number shown in front of entry `i` of the listing, typed back,
      selects entry `i`. */
  lemma ShownNumberSelects(size: nat, i: nat)
    requires i < size <= IntMax
    ensures IsValidInput(Some(NatToString(i + 1)), size)
    ensures InputIndex(Some(NatToString(i + 1))) == Some(i)
  {
    ParseIntOfNatToString(i + 1);
    ParsedNumberSelects(Some(NatToString(i + 1)), size, i);
  }

  /** A line that parses to `i + 1` asks for entry `i`, which is a valid
      choice when `i` is below the registry size. */
  lemma ParsedNumberSelects(line: Option<string>, size: nat, i: nat)
    requires i < size <= IntMax && ParseInt(line) == Some(i + 1)
    ensures IsValidInput(line, size) && InputIndex(line) == Some(i)
  {
    assert InputIndex(line) == Some(JavaPred(i + 1));
  }

  // ---------------------------------------------------------------------
  // How loops end

  /** The results a chosen option can finish a pass with: never `GoUp`,
      and at a root only `ExitMenu` or running out of lines. */
  lemma ChosenEnds(views: map<Menu, View>, m: Menu, sep: string, option: Action, inp: seq<Option<string>>, trail: string)
    requires |sep| > 0 && Closed(views) && m in views && option in views[m].actions
    ensures var c := Chosen(views, m, sep, option, inp, trail);
            c.Stop() != Some(Returned(GoUp)) &&
            (views[m].isRoot ==> c.Stop() == None || c.Stop() == Some(Returned(ExitMenu)) || c.Stop() == Some(InputExhausted))
  {
    match option
    case NoAction =>
    case Handler(res) =>
    case Sub(child) =>
  }

  /** A menu loop never returns `GoUp`, and the loop of a root with options
      only ends by `ExitMenu` (or when the lines run out): `GoUp` and
      `ReturnHome` reaching the root go round again. */
  lemma {:induction false} RunEnds(views: map<Menu, View>, m: Menu, sep: string, inp: seq<Option<string>>, trail: string)
    requires |sep| > 0 && Closed(views) && m in views
    ensures var s := Run(views, m, sep, inp, trail);
            s.end != Returned(GoUp) &&
            (views[m].isRoot && |views[m].names| > 0 ==> s.end == Returned(ExitMenu) || s.end == InputExhausted)
    decreases |inp|
  {
    var v := views[m];
    StepUnfolds(views, m, sep, inp, trail);
    if |v.names| > 0 && inp != [] && IsValidInput(inp[0], |v.names|) {
      ChosenEnds(views, m, sep, v.actions[InputIndex(inp[0]).value], inp[1..], trail);
    }
    match Step(views, m, sep, inp, trail)
    case Again(rest, trail', events) =>
      RunEnds(views, m, sep, rest, trail');
    case Finish(s) =>
  }

  /** A chosen option that exits from a root clears the terminal last. */
  lemma ChosenExitClears(views: map<Menu, View>, m: Menu, sep: string, option: Action,
                         inp: seq<Option<string>>, trail: string)
    requires |sep| > 0 && Closed(views) && m in views && option in views[m].actions && views[m].isRoot
    ensures var c := Chosen(views, m, sep, option, inp, trail);
            c.Stop() == Some(Returned(ExitMenu)) ==> |c.Events()| > 0 && c.Events()[|c.Events()| - 1] == Clear
  {
    match option
    case NoAction =>
    case Handler(res) =>
    case Sub(child) =>
  }

  /** A root loop that ends by `ExitMenu` clears the terminal last. */
  lemma {:induction false} RootExitClears(views: map<Menu, View>, m: Menu, sep: string, inp: seq<Option<string>>, trail: string)
    requires |sep| > 0 && Closed(views) && m in views && views[m].isRoot
    ensures var s := Run(views, m, sep, inp, trail);
            s.end == Returned(ExitMenu) ==> |s.events| > 0 && s.events[|s.events| - 1] == Clear
    decreases |inp|
  {
    var v := views[m];
    StepUnfolds(views, m, sep, inp, trail);
    match Step(views, m, sep, inp, trail)
    case Again(rest, trail', events) =>
      RootExitClears(views, m, sep, rest, trail');
    case Finish(s) =>
      if |v.names| > 0 && inp != [] && IsValidInput(inp[0], |v.names|) {
        var option := v.actions[InputIndex(inp[0]).value];
        var c := Chosen(views, m, sep, option, inp[1..], trail);
        ChosenExitClears(views, m, sep, option, inp[1..], trail);
        if c.Stop() == Some(Returned(ExitMenu)) {
          var pre := [Clear, Shown(ScreenText(v, trail))] + [Read];
          assert s.events == pre + c.Events();
        }
      }
  }

  /** `ExitMenu` coming back from a submenu is passed on at once, with the
      breadcrumb as the submenu left it; only a root clears the terminal
      once more. */
  lemma ExitUnwinds(views: map<Menu, View>, m: Menu, sep: string, child: Menu, inp: seq<Option<string>>, trail: string)
    requires |sep| > 0 && Closed(views) && m in views && Sub(child) in views[m].actions
    ensures var inner := Run(views, child, sep, inp, trail + sep + views[child].name);
            var c := Chosen(views, m, sep, Sub(child), inp, trail);
            inner.end == Returned(ExitMenu) ==>
              c == Finish(Session(Returned(ExitMenu), inner.rest, inner.trail,
                                  inner.events + if views[m].isRoot then [Clear] else []))
  {
  }

  // ---------------------------------------------------------------------
  // Lines read

  /** The number of reads in a list of terminal events. */
  function Reads(events: seq<Event>): nat {
    if events == [] then 0
    else Reads(events[..|events| - 1]) + (if events[|events| - 1] == Read then 1 else 0)
  }

  lemma {:induction false} ReadsConcat(a: seq<Event>, b: seq<Event>)
    ensures Reads(a + b) == Reads(a) + Reads(b)
    decreases |b|
  {
    if b == [] {
      assert a + b == a;
    } else {
      var b' := b[..|b| - 1];
      assert (a + b)[..|a + b| - 1] == a + b';
      assert (a + b)[|a + b| - 1] == b[|b| - 1];
      ReadsConcat(a, b');
    }
  }

  /** Events without a read count none. */
  lemma {:induction false} ReadsNone(events: seq<Event>)
    requires Read !in events
    ensures Reads(events) == 0
    decreases |events|
  {
    if events != [] {
      var init := events[..|events| - 1];
      assert forall e :: e in init ==> e in events;
      ReadsNone(init);
    }
  }

  /** Every line consumed by a chosen option, nested submenu loops
      included, is read from the terminal exactly once. */
  lemma {:induction false} ChosenReads(views: map<Menu, View>, m: Menu, sep: string, option: Action,
                                       inp: seq<Option<string>>, trail: string)
    requires |sep| > 0 && Closed(views) && m in views && option in views[m].actions
    ensures var c := Chosen(views, m, sep, option, inp, trail);
            Reads(c.Events()) == |inp| - |c.Rest()|
    decreases |inp|, 3
  {
    match option
    case NoAction =>
    case Handler(res) =>
      ReadsNone(Settle(views[m].isRoot, sep, res, inp, trail).Events());
    case Sub(child) =>
      var inner := Run(views, child, sep, inp, trail + sep + views[child].name);
      RunReads(views, child, sep, inp, trail + sep + views[child].name);
      if !inner.end.InputExhausted? {
        var t := Settle(views[m].isRoot, sep, Some(inner.end.result), inner.rest, inner.trail);
        ReadsNone(t.Events());
        ReadsConcat(inner.events, t.Events());
      }
  }

  /** Every line consumed by a pass is read from the terminal exactly once. */
  lemma {:induction false} StepReads(views: map<Menu, View>, m: Menu, sep: string, inp: seq<Option<string>>, trail: string)
    requires |sep| > 0 && Closed(views) && m in views
    ensures var t := Step(views, m, sep, inp, trail);
            Reads(t.Events()) == |inp| - |t.Rest()|
    decreases |inp|, 1
  {
    var v := views[m];
    var pre := [Clear, Shown(ScreenText(v, trail))];
    ReadsNone(pre);
    assert Reads([Read]) == 1 by {
      assert [Read][..0] == [];
    }
    ReadsConcat(pre, [Read]);
    StepUnfolds(views, m, sep, inp, trail);
    if |v.names| > 0 && inp != [] && IsValidInput(inp[0], |v.names|) {
      var c := Chosen(views, m, sep, v.actions[InputIndex(inp[0]).value], inp[1..], trail);
      ChosenReads(views, m, sep, v.actions[InputIndex(inp[0]).value], inp[1..], trail);
      ReadsConcat(pre + [Read], c.Events());
    }
  }

  /** Every line a whole loop consumes, nested submenu loops included, is
      read from the terminal exactly once. */
  lemma {:induction false} RunReads(views: map<Menu, View>, m: Menu, sep: string, inp: seq<Option<string>>, trail: string)
    requires |sep| > 0 && Closed(views) && m in views
    ensures var s := Run(views, m, sep, inp, trail);
            Reads(s.events) == |inp| - |s.rest|
    decreases |inp|, 2
  {
    StepReads(views, m, sep, inp, trail);
    match Step(views, m, sep, inp, trail)
    case Again(rest, trail', events) =>
      RunReads(views, m, sep, rest, trail');
      ReadsConcat(events, Run(views, m, sep, rest, trail').events);
    case Finish(s) =>
  }

  // ---------------------------------------------------------------------
  // The breadcrumb

  /** Menus built the way `addSubMenu` builds them: every submenu that can
      be entered is not a root, has at least one option, and has a name
      that holds no separator. */
  ghost predicate WellNested(views: map<Menu, View>, sep: string)
    requires |sep| > 0
  {
    forall m, a :: m in views && a in views[m].actions && a.Sub? && a.menu in views ==>
      !views[a.menu].isRoot && |views[a.menu].names| > 0 && CleanSegment(views[a.menu].name, sep)
  }

  /** The loop of `m` is running at depth `path` below a root named
      `root`: a root at the top, any other menu below it, every name on the
      way clean of the separator, and `m` with at least one option. */
  ghost predicate Nested(views: map<Menu, View>, sep: string, root: string, path: seq<string>, m: Menu)
  {
    |sep| > 0 && Closed(views) && m in views && WellNested(views, sep) && CleanRoot(root, sep) &&
    (forall i :: 0 <= i < |path| ==> CleanSegment(path[i], sep)) &&
    |views[m].names| > 0 && (views[m].isRoot <==> path == [])
  }

  /** What a pass of a loop entered at `Trail(root, path)` leaves on the
      breadcrumb: going round again, the same; finishing with `Success`,
      one level up; finishing with `ReturnHome`, only the root. */
  ghost predicate KeepsTrail(t: Turn, root: string, path: seq<string>, sep: string) {
    (t.Stop() == None ==> t.Trail() == Trail(root, path, sep)) &&
    (t.Stop() == Some(Returned(Success)) ==> path != [] && t.Trail() == Trail(root, path[..|path| - 1], sep)) &&
    (t.Stop() == Some(Returned(ReturnHome)) ==> path != [] && t.Trail() == root)
  }

  /** Settling any result at depth `path` keeps the breadcrumb as
      `KeepsTrail` says: `GoUp` pops the last name, `ReturnHome` cuts back
      to the root. */
  lemma SettleKeepsTrail(isRoot: bool, sep: string, root: string, path: seq<string>,
                         res: Option<ActionResult>, inp: seq<Option<string>>)
    requires |sep| > 0 && CleanRoot(root, sep) && (forall i :: 0 <= i < |path| ==> CleanSegment(path[i], sep))
    requires isRoot <==> path == []
    ensures KeepsTrail(Settle(isRoot, sep, res, inp, Trail(root, path, sep)), root, path, sep)
  {
    match res
    case None =>
    case Some(Success) =>
    case Some(ExitMenu) =>
    case Some(GoUp) =>
      if path != [] {
        var up := path[..|path| - 1];
        assert path == up + [path[|path| - 1]];
        PopTrail(root, up, path[|path| - 1], sep);
      }
    case Some(ReturnHome) =>
      RootOfTrail(root, path, sep);
  }

  /** A chosen option keeps the breadcrumb as `KeepsTrail` says, the
      submenu it may enter included. */
  lemma {:induction false} ChosenKeepsTrail(views: map<Menu, View>, sep: string, root: string, path: seq<string>,
                                            m: Menu, option: Action, inp: seq<Option<string>>)
    requires Nested(views, sep, root, path, m) && option in views[m].actions
    ensures KeepsTrail(Chosen(views, m, sep, option, inp, Trail(root, path, sep)), root, path, sep)
    decreases |inp|, 3
  {
    var trail := Trail(root, path, sep);
    var isRoot := views[m].isRoot;
    match option
    case NoAction =>
    case Handler(res) =>
      SettleKeepsTrail(isRoot, sep, root, path, res, inp);
    case Sub(child) =>
      var name := views[child].name;
      var deeper := path + [name];
      assert deeper[..|path|] == path;
      assert Trail(root, deeper, sep) == trail + sep + name;
      assert forall i :: 0 <= i < |deeper| ==> CleanSegment(deeper[i], sep) by {
        forall i | 0 <= i < |deeper| ensures CleanSegment(deeper[i], sep) {
          if i < |path| { assert deeper[i] == path[i]; }
        }
      }
      var inner := Run(views, child, sep, inp, trail + sep + name);
      RunKeepsTrail(views, sep, root, deeper, child, inp);
      RunEnds(views, child, sep, inp, trail + sep + name);
      if !inner.end.InputExhausted? {
        var res := inner.end.result;
        var t := Settle(isRoot, sep, Some(res), inner.rest, inner.trail);
        if res == Success {
          SettleKeepsTrail(isRoot, sep, root, path, Some(res), inner.rest);
        } else if res == ReturnHome {
          RootOfTrail(root, [], sep);
        }
        assert KeepsTrail(t, root, path, sep);
      }
  }

  /** A pass of a loop keeps the breadcrumb as `KeepsTrail` says. */
  lemma {:induction false} StepKeepsTrail(views: map<Menu, View>, sep: string, root: string, path: seq<string>,
                                          m: Menu, inp: seq<Option<string>>)
    requires Nested(views, sep, root, path, m)
    ensures KeepsTrail(Step(views, m, sep, inp, Trail(root, path, sep)), root, path, sep)
    decreases |inp|, 1
  {
    var v := views[m];
    StepUnfolds(views, m, sep, inp, Trail(root, path, sep));
    if inp != [] && IsValidInput(inp[0], |v.names|) {
      ChosenKeepsTrail(views, sep, root, path, m, v.actions[InputIndex(inp[0]).value], inp[1..]);
    }
  }

  /** The breadcrumb a loop leaves when it returns: one level up after
      `Success`, only the root after `ReturnHome`. With `RunEnds`, every
      submenu a choice enters gives the breadcrumb back as it found it, or
      cuts it to the root all the way up. */
  lemma {:induction false} RunKeepsTrail(views: map<Menu, View>, sep: string, root: string, path: seq<string>,
                                         m: Menu, inp: seq<Option<string>>)
    requires Nested(views, sep, root, path, m)
    ensures var s := Run(views, m, sep, inp, Trail(root, path, sep));
            (s.end == Returned(Success) ==> path != [] && s.trail == Trail(root, path[..|path| - 1], sep)) &&
            (s.end == Returned(ReturnHome) ==> path != [] && s.trail == root)
    decreases |inp|, 2
  {
    StepKeepsTrail(views, sep, root, path, m, inp);
    match Step(views, m, sep, inp, Trail(root, path, sep))
    case Again(rest, trail', events) =>
      RunKeepsTrail(views, sep, root, path, m, rest);
    case Finish(s) =>
  }

  /** Why submenus need options: a submenu without any returns `Success`
      at once, and its parent, the root included, goes on with the
      submenu's name still on the breadcrumb. */
  lemma OptionlessSubmenuKeepsSegment(views: map<Menu, View>, m: Menu, child: Menu, sep: string,
                                      inp: seq<Option<string>>, trail: string)
    requires |sep| > 0 && Closed(views) && m in views && Sub(child) in views[m].actions
    requires |views[child].names| == 0
    ensures var t := Chosen(views, m, sep, Sub(child), inp, trail);
            t.Again? && t.trail == trail + sep + views[child].name && t.trail != trail
  {
    NoOptionsShowsOnce(views, child, sep, inp, trail + sep + views[child].name);
  }
}
