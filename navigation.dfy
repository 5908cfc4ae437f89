/** The breadcrumb shown at the top of every menu screen: the root menu's
    name followed by `separator + name` for every submenu entered. It is
    kept as one string and edited by appending and by cutting at the first
    or last separator. */
module Navigation {
  import opened Common

  /** `sep` occurs in `s` starting at position `i`. */
  predicate OccursAt(s: string, sep: string, i: int) {
    0 <= i && i + |sep| <= |s| && s[i..i + |sep|] == sep
  }

  /** The first occurrence of `sep` at or after `from`, or -1. */
  function IndexFrom(s: string, sep: string, from: nat): (r: int)
    requires |sep| > 0 && from <= |s|
    ensures r == -1 || (from <= r && OccursAt(s, sep, r))
    ensures forall j :: from <= j && (r == -1 || j < r) ==> !OccursAt(s, sep, j)
    decreases |s| - from
  {
    if from + |sep| > |s| then -1
    else if OccursAt(s, sep, from) then from
    else IndexFrom(s, sep, from + 1)
  }

  /** `String.indexOf(sep)`: the first occurrence of `sep`, or -1. */
  function IndexOf(s: string, sep: string): (r: int)
    requires |sep| > 0
    ensures r == -1 || OccursAt(s, sep, r)
    ensures forall j :: 0 <= j && (r == -1 || j < r) ==> !OccursAt(s, sep, j)
  {
    IndexFrom(s, sep, 0)
  }

  /** The last occurrence of `sep` at or before `k`, or -1. */
  function LastIndexBelow(s: string, sep: string, k: int): (r: int)
    requires |sep| > 0
    ensures r == -1 || (r <= k && OccursAt(s, sep, r))
    ensures forall j :: r < j <= k ==> !OccursAt(s, sep, j)
    decreases k + 1
  {
    if k < 0 then -1
    else if OccursAt(s, sep, k) then k
    else LastIndexBelow(s, sep, k - 1)
  }

  /** `String.lastIndexOf(sep)`: the last occurrence of `sep`, or -1. */
  function LastIndexOf(s: string, sep: string): (r: int)
    requires |sep| > 0
    ensures r == -1 || OccursAt(s, sep, r)
    ensures forall j :: r < j ==> !OccursAt(s, sep, j)
  {
    LastIndexBelow(s, sep, |s| - |sep|)
  }

  /** The display after going up one level: everything before the last
      separator, or the display itself when it holds no separator. */
  function Pop(display: string, sep: string): string
    requires |sep| > 0
  {
    var k := LastIndexOf(display, sep);
    if k >= 0 then display[..k] else display
  }

  /** The display after going to the root: everything before the first
      separator, or the display itself when it holds no separator. */
  function RootOf(display: string, sep: string): string
    requires |sep| > 0
  {
    var k := IndexOf(display, sep);
    if k >= 0 then display[..k] else display
  }

  /** The breadcrumb of a root name and the names of the submenus entered
      from it, outermost first. */
  function Trail(root: string, path: seq<string>, sep: string): string
    decreases |path|
  {
    if path == [] then root else Trail(root, path[..|path| - 1], sep) + sep + path[|path| - 1]
  }

  /** The root name holds no separator, not even one that runs into the
      separator appended after it. */
  predicate CleanRoot(root: string, sep: string)
    requires |sep| > 0
  {
    IndexOf(root + sep, sep) == |root|
  }

  /** A submenu name holds no separator, not even one that starts inside
      the separator pushed before it. */
  predicate CleanSegment(name: string, sep: string)
    requires |sep| > 0
  {
    LastIndexOf(sep + name, sep) == 0
  }

  /** The mutable breadcrumb object shared by all active menus. */
  class NavigationPanel {
    var display: string
    var separator: string

    /** The separator is never empty: it starts as "/" and the setter
        ignores the empty string. */
    ghost predicate Valid()
      reads this
    {
      |separator| > 0
    }

    constructor ()
      ensures Valid() && display == "" && separator == "/"
    {
      display := "";
      separator := "/";
    }

    /** `setSeperator`: null and the empty string are ignored; anything
        else becomes the separator. The display is left as it is. */
    method SetSeparator(sep: Option<string>)
      requires Valid()
      modifies this`separator
      ensures Valid()
      ensures sep.Some? && sep.value != "" ==> separator == sep.value
      ensures sep.None? || sep.value == "" ==> separator == old(separator)
    {
      if sep.Some? && sep.value != "" {
        separator := sep.value;
      }
    }

    /** `setRootMenu` on a fresh panel, whose separator is still `"/"`: a
        null name leaves the display empty, any other name becomes the
        whole display. */
    method SetRootMenu(name: Option<string>)
      requires display == "" && separator == "/"
      modifies this`display
      ensures name.None? ==> display == old(display)
      ensures name.Some? ==> display == name.value
    {
      if name.Some? {
        display := name.value;
      }
    }

    /** `changeToSubMenu`: appends the separator and the name, a null name
        counting as empty. */
    method ChangeToSubMenu(name: Option<string>)
      requires Valid()
      modifies this`display
      ensures display == old(display) + separator + OrEmpty(name)
    {
      display := display + separator + OrEmpty(name);
    }

    /** `goUpMenu`: cuts the display at its last separator, if it has one. */
    method GoUpMenu()
      requires Valid()
      modifies this`display
      ensures display == Pop(old(display), separator)
    {
      if IndexOf(display, separator) >= 0 {
        var cut := LastIndexOf(display, separator);
        display := display[..cut];
      }
    }

    /** `goToRootMenu`: cuts the display at its first separator, if it has one. */
    method GoToRootMenu()
      requires Valid()
      modifies this`display
      ensures display == RootOf(old(display), separator)
    {
      if IndexOf(display, separator) >= 0 {
        var cut := IndexOf(display, separator);
        display := display[..cut];
      }
    }

    /** `toString`: the display, verbatim. */
    method ToString() returns (s: string)
      ensures s == display
    {
      s := display;
    }
  }

  /** An occurrence in `b` is an occurrence in `a + b`, shifted by `|a|`,
      and the other way round. */
  lemma OccursShift(a: string, b: string, sep: string, j: int)
    requires j >= 0
    ensures OccursAt(a + b, sep, |a| + j) <==> OccursAt(b, sep, j)
  {
    if j + |sep| <= |b| {
      assert (a + b)[|a| + j..|a| + j + |sep|] == b[j..j + |sep|];
    }
  }

  /** An occurrence that ends within a prefix is an occurrence in the
      prefix, and the other way round. */
  lemma OccursPrefix(s: string, k: int, sep: string, j: int)
    requires 0 <= k <= |s| && j + |sep| <= k
    ensures OccursAt(s[..k], sep, j) <==> OccursAt(s, sep, j)
  {
    if 0 <= j {
      assert s[..k][j..j + |sep|] == s[j..j + |sep|];
    }
  }

  /** Going up after entering a submenu restores the display, provided the
      name pushed holds no separator. */
  lemma PopAfterPush(d: string, name: string, sep: string)
    requires |sep| > 0 && CleanSegment(name, sep)
    ensures Pop(d + sep + name, sep) == d
  {
    var s := d + sep + name;
    assert s == d + (sep + name);
    OccursShift(d, sep + name, sep, 0);
    assert OccursAt(sep + name, sep, 0) by {
      assert (sep + name)[0..|sep|] == sep;
    }
    var k := LastIndexOf(s, sep);
    if k > |d| {
      OccursShift(d, sep + name, sep, k - |d|);
    }
    assert k == |d|;
    assert s[..|d|] == d;
  }

  /** Going to the root leaves a display with no separator in it that is a
      prefix of the old one; so doing it twice is doing it once. */
  lemma RootOfProperties(d: string, sep: string)
    requires |sep| > 0
    ensures IndexOf(RootOf(d, sep), sep) == -1
    ensures RootOf(d, sep) <= d
    ensures RootOf(RootOf(d, sep), sep) == RootOf(d, sep)
  {
    var k := IndexOf(d, sep);
    if k >= 0 {
      var r := d[..k];
      var j := IndexOf(r, sep);
      if j >= 0 {
        OccursPrefix(d, k, sep, j);
      }
    }
  }

  /** Going up at the root, where the display holds no separator, changes
      nothing. */
  lemma PopAtRoot(d: string, sep: string)
    requires |sep| > 0 && IndexOf(d, sep) == -1
    ensures Pop(d, sep) == d
  {
  }

  /** A trail with at least one submenu starts with the root and a separator. */
  lemma {:induction false} TrailStart(root: string, path: seq<string>, sep: string)
    requires path != []
    ensures |Trail(root, path, sep)| >= |root| + |sep|
    ensures Trail(root, path, sep)[..|root| + |sep|] == root + sep
    decreases |path|
  {
    var init := path[..|path| - 1];
    if init != [] {
      TrailStart(root, init, sep);
    }
  }

  /** Going up from the trail of `path + [name]` gives the trail of `path`. */
  lemma PopTrail(root: string, path: seq<string>, name: string, sep: string)
    requires |sep| > 0 && CleanSegment(name, sep)
    ensures Pop(Trail(root, path + [name], sep), sep) == Trail(root, path, sep)
  {
    assert (path + [name])[..|path|] == path;
    PopAfterPush(Trail(root, path, sep), name, sep);
  }

  /** However many submenus were entered, going to the root leaves exactly
      the root name, provided the root name holds no separator. */
  lemma RootOfTrail(root: string, path: seq<string>, sep: string)
    requires |sep| > 0 && CleanRoot(root, sep)
    ensures RootOf(Trail(root, path, sep), sep) == root
  {
    var t := Trail(root, path, sep);
    var k := IndexOf(t, sep);
    if path == [] {
      if k >= 0 {
        OccursPrefix(root + sep, |root|, sep, k);
      }
    } else {
      TrailStart(root, path, sep);
      var p := |root| + |sep|;
      OccursPrefix(t, p, sep, |root|);
      if k < |root| {
        OccursPrefix(t, p, sep, k);
      }
      assert k == |root|;
      assert t[..k] == (root + sep)[..|root|];
    }
  }

  /** With a one-character separator, a name is clean exactly when it
      does not contain that character. */
  lemma CleanSingleCharacter(name: string, c: char)
    ensures CleanSegment(name, [c]) <==> c !in name
    ensures CleanRoot(name, [c]) <==> c !in name
  {
    var pushed := [c] + name;
    var appended := name + [c];
    if c in name {
      var i :| 0 <= i < |name| && name[i] == c;
      assert OccursAt(pushed, [c], i + 1) by {
        assert pushed[i + 1..i + 2] == [c];
      }
      assert OccursAt(appended, [c], i) by {
        assert appended[i..i + 1] == [c];
      }
    } else {
      assert OccursAt(pushed, [c], 0) by {
        assert pushed[0..1] == [c];
      }
      assert OccursAt(appended, [c], |name|) by {
        assert appended[|name|..|name| + 1] == [c];
      }
      forall j | 0 < j
        ensures !OccursAt(pushed, [c], j)
      {
        if j < |pushed| {
          assert pushed[j..j + 1] == [name[j - 1]];
        }
      }
      forall j | 0 <= j < |name|
        ensures !OccursAt(appended, [c], j)
      {
        assert appended[j..j + 1] == [name[j]];
      }
    }
  }

  /** For a separator longer than one character, a name that merely does
      not contain it is not enough: "aa" pushed before "a" makes going up
      cut in the wrong place. */
  lemma PopNeedsCleanSegment()
    ensures IndexOf("a", "aa") == -1
    ensures Pop("d" + "aa" + "a", "aa") == "da"
  {
    assert !OccursAt("a", "aa", 0);
    var s := "d" + "aa" + "a";
    assert OccursAt(s, "aa", 2) by {
      assert s[2..4] == "aa";
    }
    assert LastIndexOf(s, "aa") == 2;
    assert s[..2] == "da";
  }
}
