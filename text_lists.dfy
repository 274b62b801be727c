/**
 * The list-of-text edits several dashboard dialogs share: appending the trimmed content of an
 * input box (the blog tags, the site keywords, the education achievements and courses), with or
 * without refusing a value already in the list.
 */
module TextLists {
  import opened JsText
  import Lists

  /** The trimmed input is taken: it is non-empty and not yet in the list. */
  predicate AcceptsUnique(list: seq<string>, input: string) {
    Trim(input) != "" && Trim(input) !in list
  }

  /** The list after appending the trimmed input unless it is empty or already present. */
  function AddUnique(list: seq<string>, input: string): (r: seq<string>)
    ensures Trim(input) != "" ==> Trim(input) in r
    ensures forall t :: t in r ==> t in list || t == Trim(input)
    ensures |list| <= |r| <= |list| + 1 && r[..|list|] == list
    ensures r == list <==> !AcceptsUnique(list, input)
    ensures Lists.NoDuplicates(list) ==> Lists.NoDuplicates(r)
  {
    if AcceptsUnique(list, input) then
      Lists.AppendAbsentKeepsNoDuplicates(list, Trim(input));
      list + [Trim(input)]
    else list
  }

  /** Removing the entry just added gives the list back. */
  lemma RemoveUndoesAddUnique(list: seq<string>, input: string)
    requires AcceptsUnique(list, input)
    ensures Lists.RemoveIndex(AddUnique(list, input), |list|) == list
  {
    assert AddUnique(list, input) == list + [Trim(input)];
    Lists.RemoveAppended(list, Trim(input));
  }

  /** The list after appending the trimmed input unless it is blank; duplicates are allowed. */
  function AddNonBlank(list: seq<string>, input: string): (r: seq<string>)
    ensures r == list <==> Blank(input)
    ensures |list| <= |r| <= |list| + 1 && r[..|list|] == list
    ensures |r| == |list| + 1 ==> r[|list|] == Trim(input) && r[|list|] != ""
  {
    TrimEmptyIffBlank(input);
    if Trim(input) != "" then list + [Trim(input)] else list
  }

  /** Removing the entry just added gives the list back. */
  lemma RemoveUndoesAddNonBlank(list: seq<string>, input: string)
    requires !Blank(input)
    ensures Lists.RemoveIndex(AddNonBlank(list, input), |list|) == list
  {
    TrimEmptyIffBlank(input);
    assert AddNonBlank(list, input) == list + [Trim(input)];
    Lists.RemoveAppended(list, Trim(input));
  }
}
