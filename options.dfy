/** The option registry every menu owns: two parallel lists, the labels
    shown to the user and the actions run when an option is chosen,
    addressed by 0-based position and listed 1-based. */
module Options {
  import opened Common
  import opened Decimal

  /** The list with `x` placed at position `i`, later entries moved up. */
  function InsertAt<T>(s: seq<T>, i: nat, x: T): (r: seq<T>)
    requires i <= |s|
  {
    s[..i] + [x] + s[i..]
  }

  /** The list without position `i`, later entries moved down. */
  function RemoveAt<T>(s: seq<T>, i: nat): (r: seq<T>)
    requires i < |s|
  {
    s[..i] + s[i + 1..]
  }

  /** The position `addOption` uses: the given index when it lies inside
      the list, otherwise the end of the list. */
  function Placement(size: nat, atIndex: int): (i: nat)
    ensures i <= size
  {
    if atIndex < 0 || atIndex >= size then size else atIndex
  }

  /** One listed line: the 1-based position, `" : "`, the label. */
  function Entry(i: nat, text: string): string {
    NatToString(i + 1) + " : " + text
  }

  /** The listing of the labels: one `Entry` per label in storage order,
      joined by newlines, with no trailing newline. */
  function Listing(labels: seq<string>): string
    decreases |labels|
  {
    if |labels| == 0 then ""
    else if |labels| == 1 then Entry(0, labels[0])
    else Listing(labels[..|labels| - 1]) + "\n" + Entry(|labels| - 1, labels[|labels| - 1])
  }

  /** An ordered registry of labelled actions, updated in place. */
  class OptionsManager<A> {
    var names: seq<string>
    var actions: seq<A>

    /** Every add and remove touches both lists, so they stay in step. */
    ghost predicate Valid()
      reads this
    {
      |names| == |actions|
    }

    constructor ()
      ensures Valid() && names == [] && actions == []
    {
      names := [];
      actions := [];
    }

    /** `addOption(name, option, atIndex)`: an index outside the list
        appends, an index inside inserts there; the index used is
        returned. A null label is stored as the empty string. */
    method AddOptionAt(name: Option<string>, action: A, atIndex: int) returns (addedAt: int)
      requires Valid()
      modifies this
      ensures Valid()
      ensures atIndex < 0 || atIndex >= |old(names)| ==>
                addedAt == |old(names)| &&
                names == old(names) + [OrEmpty(name)] && actions == old(actions) + [action]
      ensures 0 <= atIndex < |old(names)| ==>
                addedAt == atIndex &&
                names == InsertAt(old(names), atIndex, OrEmpty(name)) &&
                actions == InsertAt(old(actions), atIndex, action)
      ensures addedAt == Placement(|old(names)|, atIndex)
    {
      var text := OrEmpty(name);
      if atIndex < 0 || atIndex >= |names| {
        names := names + [text];
        actions := actions + [action];
        addedAt := |names| - 1;
      } else {
        names := names[..atIndex] + [text] + names[atIndex..];
        actions := actions[..atIndex] + [action] + actions[atIndex..];
        addedAt := atIndex;
      }
    }

    /** `addOption(name, option)`: always appends. */
    method AddOption(name: Option<string>, action: A) returns (addedAt: int)
      requires Valid()
      modifies this
      ensures Valid()
      ensures addedAt == |old(names)|
      ensures names == old(names) + [OrEmpty(name)] && actions == old(actions) + [action]
    {
      addedAt := AddOptionAt(name, action, |names|);
    }

    /** `removeOption(atIndex)`: throws `InvalidIndex` and changes nothing
        outside the list; otherwise removes exactly that entry. */
    method RemoveOption(atIndex: int) returns (r: Outcome<MenuError>)
      requires Valid()
      modifies this
      ensures Valid()
      ensures r.Fail? <==> atIndex < 0 || atIndex >= |old(names)|
      ensures r.Fail? ==> r.error == InvalidIndex(atIndex) && names == old(names) && actions == old(actions)
      ensures r.Pass? ==> names == RemoveAt(old(names), atIndex) && actions == RemoveAt(old(actions), atIndex)
    {
      if atIndex < 0 || atIndex >= |names| {
        r := Fail(InvalidIndex(atIndex));
      } else {
        names := names[..atIndex] + names[atIndex + 1..];
        actions := actions[..atIndex] + actions[atIndex + 1..];
        r := Pass;
      }
    }

    /** `getOptionAt(index)`: the stored action, or `InvalidIndex` when the
        index is outside the list. Changes nothing. */
    method GetOptionAt(index: int) returns (r: Result<A, MenuError>)
      requires Valid()
      ensures r.Err? <==> index < 0 || index >= |names|
      ensures r.Err? ==> r.error == InvalidIndex(index)
      ensures r.Ok? ==> r.value == actions[index]
    {
      if index < 0 || index >= |names| {
        r := Err(InvalidIndex(index));
      } else {
        r := Ok(actions[index]);
      }
    }

    /** `toString()`: builds the listing line by line. */
    method ToString() returns (result: string)
      ensures result == Listing(names)
    {
      result := "";
      var i := 0;
      while i < |names|
        invariant 0 <= i <= |names|
        invariant result == Listing(names[..i]) + (if 0 < i < |names| then "\n" else "")
      {
        assert names[..i + 1][..i] == names[..i];
        result := result + Entry(i, names[i]);
        if i != |names| - 1 {
          result := result + "\n";
        }
        i := i + 1;
      }
      assert names[..i] == names;
    }
  }

  /** Inserting puts the new entry at `i`, keeps earlier entries where they
      were and moves later ones up by one. */
  lemma InsertAtShifts<T>(s: seq<T>, i: nat, x: T)
    requires i <= |s|
    ensures |InsertAt(s, i, x)| == |s| + 1 && InsertAt(s, i, x)[i] == x
    ensures forall j :: 0 <= j < i ==> InsertAt(s, i, x)[j] == s[j]
    ensures forall j :: i <= j < |s| ==> InsertAt(s, i, x)[j + 1] == s[j]
  {
  }

  /** Removing drops exactly position `i`: earlier entries stay, later ones
      move down by one, and re-inserting the removed entry restores the list. */
  lemma RemoveAtShifts<T>(s: seq<T>, i: nat)
    requires i < |s|
    ensures |RemoveAt(s, i)| == |s| - 1
    ensures forall j :: 0 <= j < i ==> RemoveAt(s, i)[j] == s[j]
    ensures forall j :: i <= j < |s| - 1 ==> RemoveAt(s, i)[j] == s[j + 1]
    ensures InsertAt(RemoveAt(s, i), i, s[i]) == s
  {
    assert InsertAt(RemoveAt(s, i), i, s[i]) == s[..i] + [s[i]] + s[i + 1..];
    assert s[..i] + [s[i]] + s[i + 1..] == s[..i + 1] + s[i + 1..];
  }

  /** The listing is empty exactly when there are no options. */
  lemma {:induction false} ListingEmptyIff(labels: seq<string>)
    ensures Listing(labels) == "" <==> labels == []
  {
    if |labels| > 1 {
      var last := Entry(|labels| - 1, labels[|labels| - 1]);
      assert |Listing(labels)| >= |last| > 0;
    }
  }

  /** Adding a label at the end adds one line to the listing and leaves
      the earlier lines as they were. */
  lemma ListingAppend(labels: seq<string>, text: string)
    ensures Listing(labels + [text]) ==
            if labels == [] then Entry(0, text)
            else Listing(labels) + "\n" + Entry(|labels|, text)
  {
    assert (labels + [text])[..|labels|] == labels;
  }

  /** The listing of `n` labels has exactly `n - 1` newlines more than its
      labels have, so with newline-free labels it is `n` lines. */
  lemma {:induction false} ListingNewlines(labels: seq<string>)
    requires labels != []
    ensures Newlines(Listing(labels)) == |labels| - 1 + LabelNewlines(labels)
    decreases |labels|
  {
    if |labels| == 1 {
      EntryNewlines(0, labels[0]);
    } else {
      var init := labels[..|labels| - 1];
      var last := labels[|labels| - 1];
      ListingNewlines(init);
      EntryNewlines(|labels| - 1, last);
      NewlinesConcat(Listing(init), "\n");
      NewlinesConcat(Listing(init) + "\n", Entry(|labels| - 1, last));
      assert labels == init + [last];
      LabelNewlinesAppend(init, last);
    }
  }

  /** The number of newline characters in `s`. */
  function Newlines(s: string): nat
    decreases |s|
  {
    if s == [] then 0 else Newlines(s[..|s| - 1]) + (if s[|s| - 1] == '\n' then 1 else 0)
  }

  /** The number of newline characters in all the labels together. */
  function LabelNewlines(labels: seq<string>): nat
    decreases |labels|
  {
    if labels == [] then 0 else LabelNewlines(labels[..|labels| - 1]) + Newlines(labels[|labels| - 1])
  }

  lemma {:induction false} NewlinesConcat(a: string, b: string)
    ensures Newlines(a + b) == Newlines(a) + Newlines(b)
    decreases |b|
  {
    if b == [] {
      assert a + b == a;
    } else {
      NewlinesConcat(a, b[..|b| - 1]);
      assert (a + b)[..|a + b| - 1] == a + b[..|b| - 1];
    }
  }

  lemma LabelNewlinesAppend(labels: seq<string>, text: string)
    ensures LabelNewlines(labels + [text]) == LabelNewlines(labels) + Newlines(text)
  {
    assert (labels + [text])[..|labels|] == labels;
  }

  lemma EntryNewlines(i: nat, text: string)
    ensures Newlines(Entry(i, text)) == Newlines(text)
  {
    var digits := NatToString(i + 1);
    NewlinesConcat(digits, " : ");
    NewlinesConcat(digits + " : ", text);
    DigitsHaveNoNewline(digits);
    assert Newlines(" : ") == 0 by {
      assert " : "[..2] == " :";
      assert " :"[..1] == " ";
      assert " "[..0] == "";
    }
  }

  lemma {:induction false} DigitsHaveNoNewline(s: string)
    requires AllDigits(s)
    ensures Newlines(s) == 0
    decreases |s|
  {
    if s != [] {
      DigitsHaveNoNewline(s[..|s| - 1]);
    }
  }
}
