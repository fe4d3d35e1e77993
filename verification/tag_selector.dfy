/**
 * The tag selector: the comma-separated tag value, the list of selected tags the selector
 * keeps, adding and removing a tag, and the recent tags it suggests.
 */
module TagSelector {
  import opened Text
  import opened Seqs

  /** Every piece trimmed. */
  function TrimAll(pieces: seq<string>): (r: seq<string>)
    ensures |r| == |pieces| && forall k :: 0 <= k < |pieces| ==> r[k] == Trim(pieces[k], JavaScript)
  {
    if |pieces| == 0 then [] else [Trim(pieces[0], JavaScript)] + TrimAll(pieces[1..])
  }

  function NotBlank(t: string): bool { t != "" }

  /** The tags of a value: split on commas, trimmed, empty pieces dropped; none for the empty value. */
  function ParseTags(value: string): (tags: seq<string>)
    ensures forall t :: t in tags ==> t != "" && IsTrimmed(t, JavaScript)
  {
    if value == "" then []
    else
      var r := Filter(TrimAll(Split(value, ',')), NotBlank);
      FilterMembers(TrimAll(Split(value, ',')), NotBlank);
      r
  }

  /** The value a selection is emitted as. */
  function Emitted(tags: seq<string>): string
  {
    Join(tags, ", ")
  }

  /** A tag as the selector stores it: trimmed, not empty and free of commas. */
  predicate Plain(t: string)
  {
    t != "" && IsTrimmed(t, JavaScript) && ',' !in t
  }

  /** The pieces of `p` followed by an emitted selection: the first piece carries `p`, the others a space. */
  lemma {:induction false} SplitEmitted(p: string, tags: seq<string>)
    requires |tags| >= 1 && ',' !in p
    requires forall k :: 0 <= k < |tags| ==> ',' !in tags[k]
    ensures Split(p + Emitted(tags), ',') == [p + tags[0]] + seq(|tags| - 1, k requires 0 <= k < |tags| - 1 => " " + tags[k + 1])
    decreases |tags|
  {
    if |tags| == 1 {
      assert p + Emitted(tags) == p + tags[0];
      SplitNoSep(p + tags[0], ',');
    } else {
      var rest := tags[1..];
      assert p + Emitted(tags) == (p + tags[0]) + [','] + (" " + Emitted(rest));
      SplitPrefix(p + tags[0], ',', " " + Emitted(rest));
      SplitEmitted(" ", rest);
    }
  }

  lemma TrimSpaced(t: string)
    requires t != "" && IsTrimmed(t, JavaScript)
    ensures Trim(" " + t, JavaScript) == t
  {
    assert (" " + t)[1..] == t;
    TrimOfTrimmed(t, JavaScript);
  }

  /** Parsing an emitted selection of plain tags gives back the selection. */
  lemma ParseEmitted(tags: seq<string>)
    requires forall k :: 0 <= k < |tags| ==> Plain(tags[k])
    ensures ParseTags(Emitted(tags)) == tags
  {
    if |tags| > 0 {
      assert Emitted(tags) != "" by {
        if |tags| == 1 { } else { assert Emitted(tags) == tags[0] + ", " + Emitted(tags[1..]); }
      }
      SplitEmitted("", tags);
      assert "" + Emitted(tags) == Emitted(tags) && "" + tags[0] == tags[0];
      var trimmed := TrimAll(Split(Emitted(tags), ','));
      forall k | 0 <= k < |tags| ensures trimmed[k] == tags[k] {
        if k == 0 { TrimOfTrimmed(tags[0], JavaScript); } else { TrimSpaced(tags[k]); }
      }
      assert trimmed == tags;
      FilterAll(tags, NotBlank);
    }
  }

  /** The recent tags the selector offers: those not selected, at most ten. */
  function AvailableRecent(recent: seq<string>, selected: seq<string>): (r: seq<string>)
    ensures |r| <= 10
  {
    Take(Filter(recent, (t: string) => t !in selected), 10)
  }

  /** Each suggestion is a recent tag that is not selected, in the order of the recent tags. */
  lemma AvailableRecentSpec(recent: seq<string>, selected: seq<string>)
    ensures forall t :: t in AvailableRecent(recent, selected) ==> t in recent && t !in selected
    ensures |Filter(recent, (t: string) => t !in selected)| <= 10 ==>
      forall t :: t in recent && t !in selected ==> t in AvailableRecent(recent, selected)
  {
    var kept := Filter(recent, (t: string) => t !in selected);
    FilterMembers(recent, (t: string) => t !in selected);
    var r := AvailableRecent(recent, selected);
    forall t | t in r ensures t in kept {
      var k :| 0 <= k < |r| && r[k] == t;
      assert kept[k] == t;
    }
  }

  predicate Distinct(s: seq<string>)
  {
    forall i, j :: 0 <= i < j < |s| ==> s[i] != s[j]
  }

  /** The selector: the selected tags, the text being typed, and the last value emitted. */
  class Selector {
    var selected: seq<string>
    var input: string
    var emitted: string

    /** Every selected tag is trimmed and not empty. */
    predicate Valid()
      reads this
    {
      forall t :: t in selected ==> t != "" && IsTrimmed(t, JavaScript)
    }

    /** The selection is read from the value the selector is given. */
    constructor (value: string)
      ensures selected == ParseTags(value) && input == "" && emitted == value
      ensures Valid()
    {
      selected := ParseTags(value);
      input := "";
      emitted := value;
    }

    /**
     * `addTag`: a tag that is blank once trimmed, or already selected, changes nothing; otherwise
     * the trimmed tag is appended, the selection is emitted and the input is cleared.
     */
    method AddTag(tag: string)
      requires Valid()
      modifies this
      ensures Valid()
      ensures Trim(tag, JavaScript) == "" || Trim(tag, JavaScript) in old(selected) ==>
        selected == old(selected) && input == old(input) && emitted == old(emitted)
      ensures Trim(tag, JavaScript) != "" && Trim(tag, JavaScript) !in old(selected) ==>
        selected == old(selected) + [Trim(tag, JavaScript)] && emitted == Emitted(selected) && input == ""
      ensures Distinct(old(selected)) ==> Distinct(selected)
    {
      var trimmed := Trim(tag, JavaScript);
      if trimmed == "" || trimmed in selected {
        return;
      }
      selected := selected + [trimmed];
      emitted := Emitted(selected);
      input := "";
    }

    /** `removeTag`: every copy of the tag leaves the selection, and the rest is emitted. */
    method RemoveTag(tag: string)
      requires Valid()
      modifies this
      ensures Valid()
      ensures selected == Filter(old(selected), (t: string) => t != tag)
      ensures tag !in selected && forall t :: t != tag ==> (t in selected <==> t in old(selected))
      ensures emitted == Emitted(selected) && input == old(input)
    {
      FilterMembers(selected, (t: string) => t != tag);
      selected := Filter(selected, (t: string) => t != tag);
      emitted := Emitted(selected);
    }

    /** A new value from the owner of the selector replaces the selection with its tags. */
    method ValueChanged(value: string)
      modifies this
      ensures selected == ParseTags(value) && input == old(input) && emitted == old(emitted)
      ensures Valid()
    {
      selected := ParseTags(value);
    }

    /** Enter or a comma adds the text being typed. */
    method KeyDown(key: string)
      requires Valid()
      modifies this
      ensures Valid()
      ensures key != "Enter" && key != "," ==>
        selected == old(selected) && input == old(input) && emitted == old(emitted)
      ensures (key == "Enter" || key == ",") && Trim(old(input), JavaScript) != "" && Trim(old(input), JavaScript) !in old(selected) ==>
        selected == old(selected) + [Trim(old(input), JavaScript)] && emitted == Emitted(selected) && input == ""
    {
      if key == "Enter" || key == "," {
        AddTag(input);
      }
    }
  }

  /** When every selected tag is free of commas, the emitted value parses back to the selection. */
  lemma AddTagRoundTrip(selected: seq<string>, tag: string)
    requires forall t :: t in selected ==> Plain(t)
    requires Trim(tag, JavaScript) != "" && ',' !in tag
    ensures ParseTags(Emitted(selected + [Trim(tag, JavaScript)])) == selected + [Trim(tag, JavaScript)]
  {
    TrimStartIsSuffix(tag, JavaScript);
    TrimEndIsPrefix(TrimStart(tag, JavaScript), JavaScript);
    assert ',' !in Trim(tag, JavaScript);
    var s := selected + [Trim(tag, JavaScript)];
    forall k | 0 <= k < |s| ensures Plain(s[k]) {
      if k < |selected| { assert s[k] in selected; }
    }
    ParseEmitted(s);
  }
}
