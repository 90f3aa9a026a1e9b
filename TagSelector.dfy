/** The tag selector of the entry form: preset tags toggled on and off, and a custom tag
    typed into a panel. The selected list belongs to the caller; every change hands it
    a new list. */
module TagSelector {
  import opened Common

  const PresetTags: seq<string> :=
    ["Family", "Baby", "Calm", "Nature", "Gratitude", "Personal Win", "Work", "Health", "Friends", "Love"]

  // ---------------------------------------------------------------------------
  // The lists handed to the caller

  /** `tags.filter(t => t !== tag)`. */
  function Without(tags: seq<string>, tag: string): (r: seq<string>)
    ensures |r| <= |tags|
    ensures forall x :: x in r <==> x in tags && x != tag
  {
    if tags == [] then []
    else
      var init := tags[..|tags| - 1];
      var last := tags[|tags| - 1];
      assert tags == init + [last];
      Without(init, tag) + (if last == tag then [] else [last])
  }

  /** Filtering distributes over concatenation, so the tags kept stay in their order. */
  lemma {:induction false} WithoutAppend(a: seq<string>, b: seq<string>, tag: string)
    ensures Without(a + b, tag) == Without(a, tag) + Without(b, tag)
    decreases |b|
  {
    if b == [] {
      assert a + b == a;
    } else {
      var init := b[..|b| - 1];
      assert (a + b)[..|a + b| - 1] == a + init;
      assert (a + b)[|a + b| - 1] == b[|b| - 1];
      WithoutAppend(a, init, tag);
    }
  }

  /** Every occurrence of the tag goes; every other tag keeps its number of occurrences. */
  lemma {:induction false} WithoutCounts(tags: seq<string>, tag: string, x: string)
    ensures Count(Without(tags, tag), x) == if x == tag then 0 else Count(tags, x)
    decreases |tags|
  {
    if tags != [] {
      var init := tags[..|tags| - 1];
      var last := tags[|tags| - 1];
      WithoutCounts(init, tag, x);
      CountAppend(Without(init, tag), if last == tag then [] else [last], x);
      if last != tag {
        var one: seq<string> := [last];
        assert one[..0] == [];
      }
    }
  }

  /** Removing a tag that is not there gives the same list. */
  lemma {:induction false} WithoutAbsent(tags: seq<string>, tag: string)
    requires tag !in tags
    ensures Without(tags, tag) == tags
    decreases |tags|
  {
    if tags != [] {
      var init := tags[..|tags| - 1];
      assert tags == init + [tags[|tags| - 1]];
      WithoutAbsent(init, tag);
    }
  }

  /** A filtered list keeps the tags of a duplicate-free list distinct. */
  lemma {:induction false} WithoutNoDuplicates(tags: seq<string>, tag: string)
    requires NoDuplicates(tags)
    ensures NoDuplicates(Without(tags, tag))
    decreases |tags|
  {
    if tags != [] {
      var init := tags[..|tags| - 1];
      var last := tags[|tags| - 1];
      assert NoDuplicates(init) by {
        forall i, j | 0 <= i < j < |init| ensures init[i] != init[j] {
          assert init[i] == tags[i] && init[j] == tags[j];
        }
      }
      WithoutNoDuplicates(init, tag);
      assert last !in init by {
        forall i | 0 <= i < |init| ensures init[i] != last {
          assert init[i] == tags[i];
        }
      }
      AppendFresh(Without(init, tag), if last == tag then [] else [last]);
    }
  }

  /** Appending one new element, or nothing, to a duplicate-free list keeps it so. */
  lemma AppendFresh(a: seq<string>, b: seq<string>)
    requires NoDuplicates(a) && |b| <= 1 && forall x :: x in b ==> x !in a
    ensures NoDuplicates(a + b)
  {
    var s := a + b;
    forall i, j | 0 <= i < j < |s| ensures s[i] != s[j] {
      if j >= |a| {
        assert j == |a| && s[j] == b[0] && b[0] in b;
        assert s[i] == a[i] && a[i] in a;
      } else {
        assert s[i] == a[i] && s[j] == a[j];
      }
    }
  }

  /** `toggleTag`: a selected tag is removed everywhere, any other tag is appended. */
  function Toggle(tags: seq<string>, tag: string): (r: seq<string>)
    ensures tag in tags ==> r == Without(tags, tag)
    ensures tag !in tags ==> r == tags + [tag]
    ensures tag in r <==> tag !in tags
  {
    if tag in tags then Without(tags, tag) else tags + [tag]
  }

  /** Toggling a tag that is not selected twice gives back the list. */
  lemma ToggleTwice(tags: seq<string>, tag: string)
    requires tag !in tags
    ensures Toggle(Toggle(tags, tag), tag) == tags
  {
    WithoutAppend(tags, [tag], tag);
    WithoutAbsent(tags, tag);
    assert Without([tag], tag) == Without([], tag) + [];
  }

  /** Toggling keeps a duplicate-free list free of duplicates. */
  lemma ToggleNoDuplicates(tags: seq<string>, tag: string)
    requires NoDuplicates(tags)
    ensures NoDuplicates(Toggle(tags, tag))
  {
    if tag in tags {
      WithoutNoDuplicates(tags, tag);
    } else {
      AppendFresh(tags, [tag]);
    }
  }

  /** The list `addCustomTag` hands to the caller, if any: the trimmed input appended,
      unless it is blank or already selected. */
  function AddCustom(tags: seq<string>, input: string): (r: Option<seq<string>>)
    ensures r.Some? <==> !AllSpace(input) && Trim(input) !in tags
    ensures r.Some? ==> r.value == tags + [Trim(input)]
  {
    TrimEmptyIffAllSpace(input);
    var trimmed := Trim(input);
    if trimmed != [] && trimmed !in tags then Some(tags + [trimmed]) else None
  }

  /** Adding a custom tag keeps a duplicate-free list free of duplicates. */
  lemma AddCustomNoDuplicates(tags: seq<string>, input: string)
    requires NoDuplicates(tags) && AddCustom(tags, input).Some?
    ensures NoDuplicates(AddCustom(tags, input).value)
  {
    AppendFresh(tags, [Trim(input)]);
  }

  // ---------------------------------------------------------------------------
  // The panel

  class TagSelector {
    /** The custom tag being typed. */
    var customTag: string
    /** Whether the custom-tag panel is open. */
    var showCustomInput: bool

    constructor()
      ensures customTag == "" && !showCustomInput
    {
      customTag := "";
      showCustomInput := false;
    }

    /** The "Custom" button. */
    method TogglePanel()
      modifies this
      ensures showCustomInput == !old(showCustomInput) && customTag == old(customTag)
    {
      showCustomInput := !showCustomInput;
    }

    /** The input's `onChange`. */
    method SetCustomTag(text: string)
      modifies this
      ensures customTag == text && showCustomInput == old(showCustomInput)
    {
      customTag := text;
    }

    /** `addCustomTag` against the caller's `selectedTags`: `changed` is the list passed
        to `onTagsChange`, if it is called. On success the input is cleared and the panel
        closed; otherwise nothing changes. */
    method AddCustomTag(selectedTags: seq<string>) returns (changed: Option<seq<string>>)
      modifies this
      ensures changed == AddCustom(selectedTags, old(customTag))
      ensures changed.Some? ==> customTag == "" && !showCustomInput
      ensures changed.None? ==> customTag == old(customTag) && showCustomInput == old(showCustomInput)
    {
      changed := AddCustom(selectedTags, customTag);
      if changed.Some? {
        customTag := "";
        showCustomInput := false;
      }
    }
  }
}
