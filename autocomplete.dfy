/** The suggestion box under the skill fields (src/components/Autocomplete.tsx):
    a controlled text input with a list of matching suggestions that opens on
    typing or focus, is walked with the arrow keys and appends the chosen
    suggestion to the comma list already typed. */
module Autocomplete {
  import opened Text
  import opened Candidates
  import RecruiterPanel

  // ---------------------------------------------------------------------------
  // Filtering
  // ---------------------------------------------------------------------------

  /** `suggestion.toLowerCase().includes(value.toLowerCase())`. */
  predicate Matches(suggestion: string, value: string) {
    Includes(Lower(suggestion), Lower(value))
  }

  /** `suggestions.filter(...)`: the matching suggestions, in their order. */
  function Filter(suggestions: seq<string>, value: string): (r: seq<string>)
    ensures |r| <= |suggestions|
  {
    if suggestions == [] then []
    else (if Matches(suggestions[0], value) then [suggestions[0]] else []) + Filter(suggestions[1..], value)
  }

  /** A suggestion is listed exactly when it is offered and matches. */
  lemma {:induction false} FilterMembers(suggestions: seq<string>, value: string)
    ensures forall x :: x in Filter(suggestions, value) <==> x in suggestions && Matches(x, value)
  {
    if suggestions != [] {
      FilterMembers(suggestions[1..], value);
      assert forall x :: x in suggestions <==> x == suggestions[0] || x in suggestions[1..];
    }
  }

  /** Filtering keeps the order: it distributes over concatenation, so the
      result is an in-order sublist. */
  lemma {:induction false} FilterConcat(xs: seq<string>, ys: seq<string>, value: string)
    ensures Filter(xs + ys, value) == Filter(xs, value) + Filter(ys, value)
  {
    if xs == [] {
      assert xs + ys == ys;
      EmptyPrefix(Filter(ys, value));
    } else {
      var head := if Matches(xs[0], value) then [xs[0]] else [];
      ConsConcat(xs, ys);
      FilterConcat(xs[1..], ys, value);
      FilterCons(xs + ys, value);
      FilterCons(xs, value);
      Assoc(head, Filter(xs[1..], value), Filter(ys, value));
    }
  }

  /** How Filter reads one suggestion. */
  lemma FilterCons(xs: seq<string>, value: string)
    requires xs != []
    ensures Filter(xs, value) == (if Matches(xs[0], value) then [xs[0]] else []) + Filter(xs[1..], value)
  {
  }

  lemma ConsConcat(xs: seq<string>, ys: seq<string>)
    requires xs != []
    ensures (xs + ys)[0] == xs[0] && (xs + ys)[1..] == xs[1..] + ys
  {
  }

  lemma Assoc(a: seq<string>, b: seq<string>, c: seq<string>)
    ensures a + (b + c) == (a + b) + c
  {
  }

  /** With nothing typed every suggestion is listed. */
  lemma {:induction false} FilterEmptyKeepsAll(suggestions: seq<string>)
    ensures Filter(suggestions, "") == suggestions
  {
    if suggestions != [] {
      assert StartsWith(Lower(suggestions[0]), Lower(""));
      FilterEmptyKeepsAll(suggestions[1..]);
    }
  }

  // ---------------------------------------------------------------------------
  // Appending a selection
  // ---------------------------------------------------------------------------

  /** `selectSuggestion`'s new value: the suggestion replaces a blank value and
      is otherwise added after `", "`, keeping the old value as a prefix. */
  function Appended(value: string, suggestion: string): string {
    if Trim(value) != "" then value + ", " + suggestion else suggestion
  }

  /** The old value survives as a prefix unless it was blank, and the
      suggestion always ends the new value. */
  lemma AppendedShape(value: string, suggestion: string)
    ensures var r := Appended(value, suggestion);
      (Trim(value) != "" ==> |r| == |value| + 2 + |suggestion| && r[..|value|] == value) &&
      (Trim(value) == "" ==> r == suggestion) &&
      r[|r| - |suggestion|..] == suggestion
  {
  }

  lemma CommaListUnfold(raw: string)
    ensures RecruiterPanel.CommaList(raw) == NonEmpty(RecruiterPanel.TrimAll(Split(raw, ',')))
  {
  }

  /** A leading space does not change the trimmed pieces. */
  lemma TrimmedPiecesSkipSpace(s: string)
    ensures RecruiterPanel.TrimAll(Split([' '] + s, ',')) == RecruiterPanel.TrimAll(Split(s, ','))
  {
    var t := Split(s, ',');
    var u := Split([' '] + s, ',');
    SplitLeadingChar(' ', s, ',');
    assert u[1..] == t[1..];
    assert AllSpace([' ']);
    TrimSkipsLeadingSpace([' '], t[0]);
    assert Trim(u[0]) == Trim(t[0]);
    TrimAllCons(u);
    TrimAllCons(t);
  }

  lemma TrimAllCons(xs: seq<string>)
    requires xs != []
    ensures RecruiterPanel.TrimAll(xs) == [Trim(xs[0])] + RecruiterPanel.TrimAll(xs[1..])
  {
    var l := RecruiterPanel.TrimAll(xs);
    var t := RecruiterPanel.TrimAll(xs[1..]);
    var r := [Trim(xs[0])] + t;
    assert |l| == |r|;
    forall i | 0 <= i < |l| ensures l[i] == r[i] {
      if i > 0 {
        assert r[i] == t[i - 1] == Trim(xs[1..][i - 1]);
      }
    }
  }

  /** A leading space does not change the comma list. */
  lemma CommaListSkipsSpace(s: string)
    ensures RecruiterPanel.CommaList([' '] + s) == RecruiterPanel.CommaList(s)
  {
    CommaListUnfold([' '] + s);
    CommaListUnfold(s);
    TrimmedPiecesSkipSpace(s);
  }

  /** Selecting a suggestion adds it to the comma list the field holds: the
      ranking request then carries the old items followed by the new one. */
  lemma SelectionExtendsCommaList(value: string, suggestion: string)
    ensures RecruiterPanel.CommaList(Appended(value, suggestion)) ==
            (if Trim(value) != "" then RecruiterPanel.CommaList(value) else []) +
            RecruiterPanel.CommaList(suggestion)
  {
    if Trim(value) != "" {
      assert Appended(value, suggestion) == value + ", " + suggestion;
      CommaListAfterCommaSpace(value, suggestion);
    } else {
      assert Appended(value, suggestion) == suggestion;
      EmptyPrefix(RecruiterPanel.CommaList(suggestion));
    }
  }

  lemma EmptyPrefix(xs: seq<string>)
    ensures [] + xs == xs
  {
  }

  lemma CommaSpace(a: string, b: string)
    ensures a + ", " + b == a + [','] + ([' '] + b)
  {
  }

  /** Joining two texts with `", "` joins their comma lists. */
  lemma CommaListAfterCommaSpace(a: string, b: string)
    ensures RecruiterPanel.CommaList(a + ", " + b) == RecruiterPanel.CommaList(a) + RecruiterPanel.CommaList(b)
  {
    CommaSpace(a, b);
    RecruiterPanel.CommaListAround(a, [' '] + b);
    CommaListSkipsSpace(b);
  }

  // ---------------------------------------------------------------------------
  // The component's state
  // ---------------------------------------------------------------------------

  /** The keys `handleKeyDown` looks at; any other key is `OtherKey`. */
  datatype Key = ArrowDown | ArrowUp | Enter | Escape | OtherKey

  /** The component's state. `value` and `suggestions` are the props: the
      parent feeds every `onChange` value back, so a change of the text is a
      change of `value`. */
  class Widget {
    var value: string
    var suggestions: seq<string>
    var isOpen: bool
    var filtered: seq<string>
    var highlighted: int

    /** The list is the filter of the props, and the highlighted index is
        either -1 (nothing) or a position in the list. */
    predicate Valid()
      reads this
    {
      -1 <= highlighted < |filtered| && filtered == Filter(suggestions, value)
    }

    /** First render: closed, nothing highlighted, the effect has filtered. */
    constructor(value0: string, suggestions0: seq<string>)
      ensures Valid()
      ensures value == value0 && suggestions == suggestions0
      ensures !isOpen && highlighted == -1
    {
      value := value0;
      suggestions := suggestions0;
      isOpen := false;
      filtered := Filter(suggestions0, value0);
      highlighted := -1;
    }

    /** New props. The effect keyed on `[value, suggestions]` refilters and
        clears the highlight only when one of them changed. */
    method SetProps(value1: string, suggestions1: seq<string>)
      requires Valid()
      modifies this
      ensures Valid()
      ensures value == value1 && suggestions == suggestions1 && isOpen == old(isOpen)
      ensures value1 != old(value) || suggestions1 != old(suggestions) ==> highlighted == -1
      ensures value1 == old(value) && suggestions1 == old(suggestions) ==>
                filtered == old(filtered) && highlighted == old(highlighted)
    {
      if value1 != value || suggestions1 != suggestions {
        value := value1;
        suggestions := suggestions1;
        filtered := Filter(suggestions1, value1);
        highlighted := -1;
      }
    }

    /** `handleInputChange`: the typed text becomes the value and the list opens. */
    method InputChange(text: string)
      requires Valid()
      modifies this
      ensures Valid()
      ensures value == text && suggestions == old(suggestions) && isOpen
      ensures text != old(value) ==> highlighted == -1
      ensures text == old(value) ==> highlighted == old(highlighted)
    {
      SetProps(text, suggestions);
      isOpen := true;
    }

    /** `handleInputFocus`. */
    method Focus()
      requires Valid()
      modifies this
      ensures Valid() && isOpen
      ensures value == old(value) && suggestions == old(suggestions)
      ensures filtered == old(filtered) && highlighted == old(highlighted)
    {
      isOpen := true;
    }

    /** The document `mousedown` listener, for a click outside the input and
        the list. The listener acts only while `listRef` is set, that is while
        the `<ul>` is mounted: open with a non-empty list. An open list with
        no matches stays open. */
    method ClickOutside()
      requires Valid()
      modifies this
      ensures Valid()
      ensures isOpen == (old(isOpen) && old(filtered) == [])
      ensures value == old(value) && suggestions == old(suggestions)
      ensures filtered == old(filtered) && highlighted == old(highlighted)
    {
      if isOpen && filtered != [] {
        isOpen := false;
      }
    }

    /** `onMouseEnter` of the `i`-th item, which exists only while the list is shown. */
    method MouseEnter(i: int)
      requires Valid() && isOpen && 0 <= i < |filtered|
      modifies this
      ensures Valid() && highlighted == i
      ensures value == old(value) && suggestions == old(suggestions) && isOpen
      ensures filtered == old(filtered)
    {
      highlighted := i;
    }

    /** `selectSuggestion` (by click or Enter): the new value goes to the
        parent and comes back as the prop, the list closes and nothing is
        highlighted. */
    method Select(suggestion: string)
      requires Valid()
      modifies this
      ensures Valid()
      ensures value == Appended(old(value), suggestion) && suggestions == old(suggestions)
      ensures !isOpen && highlighted == -1
    {
      value := Appended(value, suggestion);
      filtered := Filter(suggestions, value);
      isOpen := false;
      highlighted := -1;
    }

    /** `handleKeyDown`. Nothing happens while the list is closed; `selected`
        is the suggestion passed to `onSuggestionSelect`, if any. */
    method KeyDown(key: Key) returns (selected: Option<string>)
      requires Valid()
      modifies this
      ensures Valid()
      ensures suggestions == old(suggestions)
      ensures !old(isOpen) ==> selected.None? && value == old(value) && !isOpen &&
                               filtered == old(filtered) && highlighted == old(highlighted)
      ensures old(isOpen) && key == ArrowDown ==>
                selected.None? && value == old(value) && isOpen &&
                highlighted == (if old(highlighted) < |old(filtered)| - 1 then old(highlighted) + 1 else old(highlighted))
      ensures old(isOpen) && key == ArrowUp ==>
                selected.None? && value == old(value) && isOpen &&
                highlighted == (if old(highlighted) > 0 then old(highlighted) - 1 else -1)
      ensures old(isOpen) && key == Enter && old(highlighted) >= 0 ==>
                selected == Some(old(filtered)[old(highlighted)]) &&
                value == Appended(old(value), old(filtered)[old(highlighted)]) &&
                !isOpen && highlighted == -1
      ensures old(isOpen) && key == Enter && old(highlighted) < 0 ==>
                selected.None? && value == old(value) && isOpen && highlighted == old(highlighted)
      ensures old(isOpen) && key == Escape ==>
                selected.None? && value == old(value) && !isOpen && highlighted == old(highlighted)
      ensures old(isOpen) && key == OtherKey ==>
                selected.None? && value == old(value) && isOpen && highlighted == old(highlighted)
    {
      selected := None;
      if !isOpen {
        return;
      }
      match key
      case ArrowDown =>
        if highlighted < |filtered| - 1 {
          highlighted := highlighted + 1;
        }
      case ArrowUp =>
        highlighted := if highlighted > 0 then highlighted - 1 else -1;
      case Enter =>
        if highlighted >= 0 {
          var chosen := filtered[highlighted];
          Select(chosen);
          selected := Some(chosen);
        }
      case Escape =>
        isOpen := false;
      case OtherKey =>
    }
  }
}
