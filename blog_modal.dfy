/**
 * The blog editor dialog: slug generation from the title, the read-time estimate from the
 * content, the auto-slug switch, tag editing and the required-field check on submit.
 */
module BlogModal {
  import opened Wrappers
  import opened JsText
  import Lists
  import TextLists

  // ---------------------------------------------------------------------------------------
  // generateSlug
  // ---------------------------------------------------------------------------------------

  /** `\w`: an ASCII letter, an ASCII digit or '_'. */
  predicate WordChar(c: char) {
    'a' <= c <= 'z' || 'A' <= c <= 'Z' || '0' <= c <= '9' || c == '_'
  }

  /** What `/[^\w\s-]/g` leaves in place. */
  predicate SlugKeeps(c: char) {
    WordChar(c) || IsSpace(c) || c == '-'
  }

  /** The characters a generated slug is made of. */
  predicate SlugChar(c: char) {
    'a' <= c <= 'z' || '0' <= c <= '9' || c == '_' || c == '-'
  }

  predicate NoDoubleDash(s: string) {
    forall i :: 0 <= i < |s| - 1 ==> !(s[i] == '-' && s[i + 1] == '-')
  }

  /**
   * `.replace(/[^\w\s-]/g, '')`: the word characters, white space and '-' of `s`, in order. A
   * kept character lands at the position given by the number of kept characters before it.
   */
  function StripSymbols(s: string): (r: string)
    ensures forall i :: 0 <= i < |r| ==> SlugKeeps(r[i]) && r[i] in s
    ensures |r| == Lists.Count(s, SlugKeeps)
    ensures forall i :: 0 <= i < |s| && SlugKeeps(s[i]) ==>
      Lists.Count(s[..i], SlugKeeps) < |r| && r[Lists.Count(s[..i], SlugKeeps)] == s[i]
  {
    Lists.FilterKeepsOrder(s, SlugKeeps);
    Lists.Filter(s, SlugKeeps)
  }

  /** Cutting `a + b` between `a` and `b` does not split a run of characters satisfying `inRun`. */
  predicate RunBoundary(a: string, b: string, inRun: char -> bool) {
    a == [] || b == [] || !inRun(a[|a| - 1]) || !inRun(b[0])
  }

  /** Leading white space of `a + b`: all of `a`'s when `a` is not blank, else it runs into `b`. */
  lemma {:induction false} TrimStartAppend(a: string, b: string)
    ensures !Blank(a) ==> TrimStart(a + b) == TrimStart(a) + b
    ensures Blank(a) ==> TrimStart(a + b) == TrimStart(b)
  {
    if a == [] {
      assert a + b == b;
    } else if IsSpace(a[0]) {
      var ab := a + b;
      assert ab[0] == a[0] && ab[1..] == a[1..] + b;
      assert TrimStart(ab) == TrimStart(a[1..] + b);
      TrimStartAppend(a[1..], b);
      BlankTail(a);
    } else {
      assert !Blank(a);
      assert (a + b)[0] == a[0];
    }
  }

  /** A string that starts with white space is blank exactly when the rest is. */
  lemma BlankTail(a: string)
    requires a != [] && IsSpace(a[0])
    ensures Blank(a) <==> Blank(a[1..])
  {
    assert forall i :: 1 <= i < |a| ==> a[1..][i - 1] == a[i];
  }

  /** `.replace(/\s+/g, '-')`: every maximal run of white space becomes one '-'. */
  function SpacesToDash(s: string): (r: string)
    ensures forall c :: c in r ==> c == '-' || (c in s && !IsSpace(c))
    ensures NoSpace(s) ==> r == s
    ensures s != [] && Blank(s) ==> r == "-"
    decreases |s|
  {
    if s == [] then []
    else if IsSpace(s[0]) then
      var rest := TrimStart(s);
      LeadingSpaceFacts(s);
      var tail := SpacesToDash(rest);
      SpaceRunCase(s, rest, tail);
      "-" + tail
    else
      var tail := SpacesToDash(s[1..]);
      NonSpaceCase(s, tail);
      [s[0]] + tail
  }

  /** What is left after a leading run of white space, in the terms `SpaceRunCase` uses. */
  lemma LeadingSpaceFacts(s: string)
    requires s != [] && IsSpace(s[0])
    ensures |TrimStart(s)| < |s|
    ensures forall c :: c in TrimStart(s) ==> c in s
    ensures Blank(s) ==> TrimStart(s) == []
  {
    SliceKeepsCharacters(s, |s| - |TrimStart(s)|, |s|);
    TrimStartAppend(s, []);
    assert s + [] == s;
  }

  /**
   * The white-space case of `SpacesToDash`: given the result for what follows the leading run,
   * one '-' in front of it has the properties `SpacesToDash` promises.
   */
  lemma SpaceRunCase(s: string, rest: string, tail: string)
    requires s != [] && IsSpace(s[0])
    requires forall c :: c in rest ==> c in s
    requires Blank(s) ==> rest == []
    requires forall c :: c in tail ==> c == '-' || (c in rest && !IsSpace(c))
    requires rest == [] ==> tail == []
    ensures forall c :: c in "-" + tail ==> c == '-' || (c in s && !IsSpace(c))
    ensures !NoSpace(s)
    ensures Blank(s) ==> "-" + tail == "-"
  {
    assert forall c :: c in "-" + tail ==> c == '-' || c in tail;
  }

  /** The other case of `SpacesToDash`: a leading character that is not white space is kept. */
  lemma NonSpaceCase(s: string, tail: string)
    requires s != [] && !IsSpace(s[0])
    requires forall c :: c in tail ==> c == '-' || (c in s[1..] && !IsSpace(c))
    requires NoSpace(s[1..]) ==> tail == s[1..]
    ensures forall c :: c in [s[0]] + tail ==> c == '-' || (c in s && !IsSpace(c))
    ensures NoSpace(s) ==> [s[0]] + tail == s
    ensures !Blank(s)
  {
    assert forall c :: c in [s[0]] + tail ==> c == s[0] || c in tail;
    assert forall c :: c in s[1..] ==> c in s;
    if NoSpace(s) {
      assert NoSpace(s[1..]);
      assert s == [s[0]] + s[1..];
    }
  }

  /** One step of `SpacesToDash`: a leading white-space run or a leading other character. */
  lemma SpacesToDashStep(s: string)
    requires s != []
    ensures IsSpace(s[0]) ==> SpacesToDash(s) == "-" + SpacesToDash(TrimStart(s))
    ensures !IsSpace(s[0]) ==> SpacesToDash(s) == [s[0]] + SpacesToDash(s[1..])
  {
  }

  /**
   * Replacing white-space runs works piece by piece as long as no run is cut: with the two
   * cases above (a single run, no white space), this makes each maximal run exactly one '-'
   * and keeps every other character in order.
   */
  lemma {:induction false} SpacesToDashAppend(a: string, b: string)
    requires RunBoundary(a, b, IsSpace)
    ensures SpacesToDash(a + b) == SpacesToDash(a) + SpacesToDash(b)
    decreases |a|
  {
    if a == [] {
      assert a + b == b;
    } else if !IsSpace(a[0]) {
      assert a[1..] == [] || a[1..][|a[1..]| - 1] == a[|a| - 1];
      SpacesToDashAppend(a[1..], b);
      SpacesToDashWord(a, b);
    } else if Blank(a) {
      SpacesToDashAfterRun(a, b);
    } else {
      var t := TrimStart(a);
      assert t != [] && t[|t| - 1] == a[|a| - 1];
      SpacesToDashAppend(t, b);
      SpacesToDashAfterSpace(a, b);
    }
  }

  /** A leading character other than white space is passed through, ahead of the rest. */
  lemma SpacesToDashWord(a: string, b: string)
    requires a != [] && !IsSpace(a[0])
    ensures SpacesToDash(a + b) == [a[0]] + SpacesToDash(a[1..] + b)
    ensures SpacesToDash(a) + SpacesToDash(b) == [a[0]] + (SpacesToDash(a[1..]) + SpacesToDash(b))
  {
    var ab := a + b;
    assert ab[0] == a[0] && ab[1..] == a[1..] + b;
    SpacesToDashStep(ab);
    SpacesToDashStep(a);
    Lists.ConcatAssoc([a[0]], SpacesToDash(a[1..]), SpacesToDash(b));
  }

  lemma SpacesToDashAfterSpace(a: string, b: string)
    requires a != [] && IsSpace(a[0]) && !Blank(a)
    requires SpacesToDash(TrimStart(a) + b) == SpacesToDash(TrimStart(a)) + SpacesToDash(b)
    ensures SpacesToDash(a + b) == SpacesToDash(a) + SpacesToDash(b)
  {
    var ab := a + b;
    assert ab[0] == a[0];
    TrimStartAppend(a, b);
    SpacesToDashStep(ab);
    SpacesToDashStep(a);
    Lists.ConcatAssoc("-", SpacesToDash(TrimStart(a)), SpacesToDash(b));
  }

  lemma SpacesToDashAfterRun(a: string, b: string)
    requires a != [] && Blank(a) && (b == [] || !IsSpace(b[0]))
    ensures SpacesToDash(a + b) == SpacesToDash(a) + SpacesToDash(b)
  {
    var ab := a + b;
    assert ab[0] == a[0];
    TrimStartAppend(a, b);
    assert TrimStart(b) == b;
    SpacesToDashStep(ab);
  }

  /** `s` without its leading '-' characters. */
  function DropDashes(s: string): (r: string)
    ensures |r| <= |s| && r == s[|s| - |r|..]
    ensures r == [] || r[0] != '-'
    ensures forall i :: 0 <= i < |s| - |r| ==> s[i] == '-'
  {
    if s != [] && s[0] == '-' then DropDashes(s[1..]) else s
  }

  /** Dropping the leading dashes keeps only characters of `s`. */
  lemma DropDashesKeepsCharacters(s: string)
    ensures forall c :: c in DropDashes(s) ==> c in s
  {
    var rest := DropDashes(s);
    forall c | c in rest ensures c in s {
      var j :| 0 <= j < |rest| && rest[j] == c;
      assert s[|s| - |rest| + j] == c;
    }
  }

  /** A string without a doubled dash keeps that property without its first character. */
  lemma NoDoubleDashTail(s: string)
    requires s != []
    ensures NoDoubleDash(s) ==> NoDoubleDash(s[1..])
  {
    if NoDoubleDash(s) {
      forall i | 0 <= i < |s| - 2 ensures !(s[1..][i] == '-' && s[1..][i + 1] == '-') {
        assert s[1..][i] == s[i + 1] && s[1..][i + 1] == s[i + 2];
      }
    }
  }

  /** On a leading single dash, dropping the leading dashes drops just that one. */
  lemma DropSingleDash(s: string)
    requires s != [] && s[0] == '-'
    ensures NoDoubleDash(s) ==> DropDashes(s) == s[1..] && NoDoubleDash(s[1..])
  {
    NoDoubleDashTail(s);
    if NoDoubleDash(s) && |s| > 1 {
      assert s[1] != '-';
    }
  }

  predicate IsDash(c: char) {
    c == '-'
  }

  predicate AllDashes(s: string) {
    forall i :: 0 <= i < |s| ==> s[i] == '-'
  }

  /** A string of dashes is dropped whole. */
  lemma DropAllDashes(s: string)
    ensures AllDashes(s) ==> DropDashes(s) == []
  {
  }

  /** A string that starts with '-' is all dashes exactly when the rest is. */
  lemma AllDashesTail(a: string)
    requires a != [] && a[0] == '-'
    ensures AllDashes(a) <==> AllDashes(a[1..])
  {
    assert forall i :: 1 <= i < |a| ==> a[1..][i - 1] == a[i];
  }

  /** Leading dashes of `a + b`: all of `a`'s unless `a` is only dashes, else they run into `b`. */
  lemma {:induction false} DropDashesAppend(a: string, b: string)
    ensures !AllDashes(a) ==> DropDashes(a + b) == DropDashes(a) + b
    ensures AllDashes(a) ==> DropDashes(a + b) == DropDashes(b)
  {
    if a == [] {
      assert a + b == b;
    } else if a[0] == '-' {
      var ab := a + b;
      assert ab[0] == a[0] && ab[1..] == a[1..] + b;
      assert DropDashes(ab) == DropDashes(a[1..] + b);
      DropDashesAppend(a[1..], b);
      AllDashesTail(a);
    } else {
      assert !AllDashes(a);
      assert (a + b)[0] == a[0];
    }
  }

  /** `.replace(/-+/g, '-')`: every maximal run of '-' becomes one '-'. */
  function CollapseDashes(s: string): (r: string)
    ensures r == [] <==> s == []
    ensures r != [] ==> r[0] == s[0]
    ensures forall c :: c in r ==> c in s
    ensures NoDoubleDash(r)
    ensures NoDoubleDash(s) ==> r == s
    ensures s != [] && AllDashes(s) ==> r == "-"
    decreases |s|
  {
    if s == [] then []
    else if s[0] == '-' then
      var rest := DropDashes(s);
      LeadingRunFacts(s);
      var tail := CollapseDashes(rest);
      CollapseLeadingRun(s, rest, tail);
      "-" + tail
    else
      var tail := CollapseDashes(s[1..]);
      CollapseLeadingOther(s, tail);
      [s[0]] + tail
  }

  /** What is left after a leading run of '-', in the terms `CollapseLeadingRun` uses. */
  lemma LeadingRunFacts(s: string)
    requires s != [] && s[0] == '-'
    ensures |DropDashes(s)| < |s|
    ensures DropDashes(s) == [] || DropDashes(s)[0] != '-'
    ensures forall c :: c in DropDashes(s) ==> c in s
    ensures NoDoubleDash(s) ==> DropDashes(s) == s[1..] && NoDoubleDash(DropDashes(s))
    ensures AllDashes(s) ==> DropDashes(s) == []
  {
    DropDashesKeepsCharacters(s);
    DropSingleDash(s);
    DropAllDashes(s);
  }

  /**
   * The dash case of `CollapseDashes`: `rest` is what follows the leading run and `tail` its
   * collapsed form; one '-' in front of `tail` has every property `CollapseDashes` promises.
   */
  lemma CollapseLeadingRun(s: string, rest: string, tail: string)
    requires s != [] && s[0] == '-'
    requires rest == [] || rest[0] != '-'
    requires forall c :: c in rest ==> c in s
    requires NoDoubleDash(s) ==> rest == s[1..] && NoDoubleDash(rest)
    requires AllDashes(s) ==> rest == []
    requires tail == [] <==> rest == []
    requires tail != [] ==> tail[0] == rest[0]
    requires forall c :: c in tail ==> c in rest
    requires NoDoubleDash(tail)
    requires NoDoubleDash(rest) ==> tail == rest
    ensures var r := "-" + tail;
      && r[0] == s[0]
      && (forall c :: c in r ==> c in s)
      && NoDoubleDash(r)
      && (NoDoubleDash(s) ==> r == s)
      && (AllDashes(s) ==> r == "-")
  {
    DashThenNoDoubleDash(tail);
    assert forall c :: c in "-" + tail ==> c == '-' || c in tail;
    if NoDoubleDash(s) {
      assert s == "-" + s[1..];
    }
  }

  /** One '-' before text that has no doubled '-' and does not start with one. */
  lemma DashThenNoDoubleDash(tail: string)
    requires NoDoubleDash(tail) && (tail == [] || tail[0] != '-')
    ensures NoDoubleDash("-" + tail)
  {
    var r := "-" + tail;
    forall i | 0 <= i < |r| - 1 ensures !(r[i] == '-' && r[i + 1] == '-') {
      if i > 0 {
        assert r[i] == tail[i - 1] && r[i + 1] == tail[i];
      }
    }
  }

  /** The other case of `CollapseDashes`: a leading character that is not '-' is kept. */
  lemma CollapseLeadingOther(s: string, tail: string)
    requires s != [] && s[0] != '-'
    requires tail == [] <==> s[1..] == []
    requires tail != [] ==> tail[0] == s[1]
    requires forall c :: c in tail ==> c in s[1..]
    requires NoDoubleDash(tail)
    requires NoDoubleDash(s[1..]) ==> tail == s[1..]
    ensures var r := [s[0]] + tail;
      && r[0] == s[0]
      && (forall c :: c in r ==> c in s)
      && NoDoubleDash(r)
      && (NoDoubleDash(s) ==> r == s)
      && !AllDashes(s)
  {
    NoDoubleDashTail(s);
    var r := [s[0]] + tail;
    forall i | 0 <= i < |r| - 1 ensures !(r[i] == '-' && r[i + 1] == '-') {
      if i > 0 {
        assert r[i] == tail[i - 1] && r[i + 1] == tail[i];
      }
    }
    if NoDoubleDash(s) {
      assert s == [s[0]] + s[1..];
    }
  }

  /** One step of `CollapseDashes`: a leading run of '-' or a leading other character. */
  lemma CollapseDashesStep(s: string)
    requires s != []
    ensures s[0] == '-' ==> CollapseDashes(s) == "-" + CollapseDashes(DropDashes(s))
    ensures s[0] != '-' ==> CollapseDashes(s) == [s[0]] + CollapseDashes(s[1..])
  {
  }

  /**
   * Collapsing works piece by piece as long as no run of '-' is cut: with the two cases above
   * (a single run, no doubled '-'), this makes each maximal run exactly one '-' and keeps every
   * other character in order.
   */
  lemma {:induction false} CollapseDashesAppend(a: string, b: string)
    requires RunBoundary(a, b, IsDash)
    ensures CollapseDashes(a + b) == CollapseDashes(a) + CollapseDashes(b)
    decreases |a|
  {
    if a == [] {
      assert a + b == b;
    } else if a[0] != '-' {
      assert a[1..] == [] || a[1..][|a[1..]| - 1] == a[|a| - 1];
      CollapseDashesAppend(a[1..], b);
      CollapseDashesWord(a, b);
    } else if AllDashes(a) {
      CollapseDashesAfterRun(a, b);
    } else {
      var t := DropDashes(a);
      assert t != [] && t[|t| - 1] == a[|a| - 1];
      CollapseDashesAppend(t, b);
      CollapseDashesAfterDash(a, b);
    }
  }

  /** A leading character other than '-' is passed through, ahead of the rest. */
  lemma CollapseDashesWord(a: string, b: string)
    requires a != [] && a[0] != '-'
    ensures CollapseDashes(a + b) == [a[0]] + CollapseDashes(a[1..] + b)
    ensures CollapseDashes(a) + CollapseDashes(b) == [a[0]] + (CollapseDashes(a[1..]) + CollapseDashes(b))
  {
    var ab := a + b;
    assert ab[0] == a[0] && ab[1..] == a[1..] + b;
    CollapseDashesStep(ab);
    CollapseDashesStep(a);
    Lists.ConcatAssoc([a[0]], CollapseDashes(a[1..]), CollapseDashes(b));
  }

  lemma CollapseDashesAfterDash(a: string, b: string)
    requires a != [] && a[0] == '-' && !AllDashes(a)
    requires CollapseDashes(DropDashes(a) + b) == CollapseDashes(DropDashes(a)) + CollapseDashes(b)
    ensures CollapseDashes(a + b) == CollapseDashes(a) + CollapseDashes(b)
  {
    var ab := a + b;
    assert ab[0] == a[0];
    DropDashesAppend(a, b);
    CollapseDashesStep(ab);
    CollapseDashesStep(a);
    Lists.ConcatAssoc("-", CollapseDashes(DropDashes(a)), CollapseDashes(b));
  }

  lemma CollapseDashesAfterRun(a: string, b: string)
    requires a != [] && AllDashes(a) && (b == [] || b[0] != '-')
    ensures CollapseDashes(a + b) == CollapseDashes(a) + CollapseDashes(b)
  {
    var ab := a + b;
    assert ab[0] == a[0];
    DropDashesAppend(a, b);
    assert DropDashes(b) == b;
    CollapseDashesStep(ab);
  }

  predicate NoUpper(s: string) {
    forall c :: c in s ==> !('A' <= c <= 'Z')
  }

  /** Lower-casing and trimming leave no ASCII capital. */
  lemma LowerTrimmedHasNoUpper(title: string)
    ensures NoUpper(Trim(ToLower(title)))
  {
    var lower := ToLower(title);
    TrimKeepsCharacters(lower);
    forall c | c in lower ensures !('A' <= c <= 'Z') {
      var j :| 0 <= j < |lower| && lower[j] == c;
    }
  }

  /** Kept characters that are neither capitals nor white space are slug characters. */
  lemma DashedCharacters(kept: string)
    requires NoUpper(kept) && forall i :: 0 <= i < |kept| ==> SlugKeeps(kept[i])
    ensures forall c :: c in SpacesToDash(kept) ==> SlugChar(c)
  {
    forall c | c in SpacesToDash(kept) ensures SlugChar(c) {
      if c != '-' {
        var i :| 0 <= i < |kept| && kept[i] == c;
      }
    }
  }

  /**
   * `generateSlug(title)`: lower-cased, trimmed, stripped of everything but word characters,
   * white space and '-', white-space runs turned into '-', and '-' runs collapsed.
   */
  function GenerateSlug(title: string): (r: string)
    ensures forall c :: c in r ==> SlugChar(c)
    ensures NoDoubleDash(r)
  {
    var trimmed := Trim(ToLower(title));
    LowerTrimmedHasNoUpper(title);
    var kept := StripSymbols(trimmed);
    assert NoUpper(kept);
    DashedCharacters(kept);
    CollapseDashes(SpacesToDash(kept))
  }

  /** A slug holds no white space. */
  lemma SlugHasNoSpace(title: string)
    ensures NoSpace(GenerateSlug(title))
  {
    SlugCharsAreNoSpace(GenerateSlug(title));
  }

  /** A lower-case string is its own `toLowerCase`. */
  lemma ToLowerOfSlug(s: string)
    requires forall c :: c in s ==> SlugChar(c)
    ensures ToLower(s) == s
  {
    forall i | 0 <= i < |s| ensures ToLower(s)[i] == s[i] {
      assert s[i] in s;
    }
  }

  /** Every string of slug characters without a doubled '-' is its own slug. */
  lemma SlugIsFixedPoint(s: string)
    requires forall c :: c in s ==> SlugChar(c)
    requires NoDoubleDash(s)
    ensures GenerateSlug(s) == s
  {
    ToLowerOfSlug(s);
    SlugCharsAreNoSpace(s);
    TrimWithoutSpace(s);
    SlugCharsAreKept(s);
    var stripped := StripSymbols(Trim(ToLower(s)));
    assert stripped == s;
    assert CollapseDashes(SpacesToDash(stripped)) == s;
  }

  lemma SlugCharsAreNoSpace(s: string)
    requires forall c :: c in s ==> SlugChar(c)
    ensures NoSpace(s)
  {
    forall i | 0 <= i < |s| ensures !IsSpace(s[i]) {
      assert SlugChar(s[i]);
    }
  }

  lemma SlugCharsAreKept(s: string)
    requires forall c :: c in s ==> SlugChar(c)
    ensures StripSymbols(s) == s
  {
    forall i | 0 <= i < |s| ensures SlugKeeps(s[i]) {
      assert SlugChar(s[i]);
    }
    Lists.FilterKeepsAll(s, SlugKeeps);
  }

  /** Generating a slug from a slug returns it unchanged. */
  lemma GenerateSlugIdempotent(title: string)
    ensures GenerateSlug(GenerateSlug(title)) == GenerateSlug(title)
  {
    SlugIsFixedPoint(GenerateSlug(title));
  }

  // ---------------------------------------------------------------------------------------
  // calculateReadTime
  // ---------------------------------------------------------------------------------------

  /** `s` without its leading run of non-white-space characters. */
  function SkipWord(s: string): (r: string)
    ensures |r| <= |s| && r == s[|s| - |r|..]
    ensures r == [] || IsSpace(r[0])
    ensures forall i :: 0 <= i < |s| - |r| ==> !IsSpace(s[i])
  {
    if s == [] || IsSpace(s[0]) then s
    else
      var r := SkipWord(s[1..]);
      assert forall i :: 1 <= i < |s| - |r| ==> s[i] == s[1..][i - 1];
      r
  }

  /** The number of matches of `/\s+/` in `s`: its maximal runs of white space. */
  function SpaceRuns(s: string): nat
    decreases |s|
  {
    if s == [] then 0
    else if IsSpace(s[0]) then
      1 + SpaceRuns(TrimStart(s))
    else SpaceRuns(s[1..])
  }

  /** The words of `s`: its maximal runs of non-white-space characters. */
  function Words(s: string): nat
    decreases |s|
  {
    if s == [] then 0
    else if IsSpace(s[0]) then
      Words(TrimStart(s))
    else 1 + Words(SkipWord(s))
  }

  /** `s.split(/\s+/).length`: one more piece than there are separators. */
  function SplitLength(s: string): (n: nat)
    ensures n >= 1
  {
    SpaceRuns(s) + 1
  }

  /** Skipping non-white-space characters skips no white-space run. */
  lemma {:induction false} SpaceRunsSkipWord(s: string)
    ensures SpaceRuns(SkipWord(s)) == SpaceRuns(s)
  {
    if s != [] && !IsSpace(s[0]) {
      SpaceRunsSkipWord(s[1..]);
    }
  }

  /**
   * In a string that starts with a word, words and white-space runs alternate: there is one
   * word more than there are runs, unless the string ends in white space.
   */
  lemma {:induction false} WordsAndSpaceRuns(s: string)
    requires s != [] && !IsSpace(s[0])
    ensures Words(s) == SpaceRuns(s) + (if IsSpace(s[|s| - 1]) then 0 else 1)
    decreases |s|
  {
    var u := SkipWord(s);
    SpaceRunsSkipWord(s);
    if u != [] {
      var v := TrimStart(u);
      assert u[|u| - 1] == s[|s| - 1];
      if v != [] {
        assert v[|v| - 1] == u[|u| - 1];
        WordsAndSpaceRuns(v);
      } else {
        assert IsSpace(u[|u| - 1]);
      }
    }
  }

  /**
   * `calculateReadTime(text)`: `Math.ceil` of the number of pieces `trim().split(/\s+/)`
   * yields over 200; never below 1, since splitting yields at least one piece.
   */
  function ReadTime(text: string): (minutes: int)
    ensures minutes >= 1
  {
    CeilDiv(SplitLength(Trim(text)), 200)
  }

  /** The estimate is one minute per 200 words, rounded up; blank text still counts one minute. */
  lemma ReadTimeCountsWords(text: string)
    ensures Trim(text) != [] ==> ReadTime(text) == CeilDiv(Words(Trim(text)), 200)
    ensures Blank(text) ==> ReadTime(text) == 1
  {
    var t := Trim(text);
    if t != [] {
      WordsAndSpaceRuns(t);
    }
    TrimEmptyIffBlank(text);
  }

  /** Up to 200 words read in one minute; 201 words take two. */
  lemma ReadTimeBoundary(text: string)
    requires Trim(text) != []
    ensures Words(Trim(text)) <= 200 ==> ReadTime(text) == 1
    ensures Words(Trim(text)) == 201 ==> ReadTime(text) == 2
  {
    ReadTimeCountsWords(text);
  }

  // ---------------------------------------------------------------------------------------
  // The dialog's state
  // ---------------------------------------------------------------------------------------

  datatype BlogForm = BlogForm(
    title: string,
    slug: string,
    excerpt: string,
    content: string,
    coverImage: string,
    category: string,
    tags: seq<string>,
    author: string,
    published: bool,
    readTime: string,
    showInAllPortfolios: bool)

  /** The form's initial values. */
  const EmptyForm := BlogForm("", "", "", "", "", "", [], "", false, "0", false)

  /** A stored blog as it arrives: every field may be absent. */
  datatype BlogRecord = BlogRecord(
    title: Option<string>,
    slug: Option<string>,
    excerpt: Option<string>,
    content: Option<string>,
    coverImage: Option<string>,
    category: Option<string>,
    tags: Option<seq<string>>,
    author: Option<string>,
    published: Option<bool>,
    readTime: Option<string>,
    showInAllPortfolios: Option<bool>)

  /** The form filled from a stored blog, each absent or empty field replaced by its default. */
  function LoadedForm(b: BlogRecord): (f: BlogForm)
    ensures LoadedAs(b.title, "", f.title) && LoadedAs(b.slug, "", f.slug)
    ensures LoadedAs(b.excerpt, "", f.excerpt) && LoadedAs(b.content, "", f.content)
    ensures LoadedAs(b.coverImage, "", f.coverImage) && LoadedAs(b.category, "", f.category)
    ensures LoadedAs(b.author, "", f.author)
    ensures LoadedAs(b.readTime, "0", f.readTime) && f.readTime != ""
    ensures b.tags.Some? ==> f.tags == b.tags.value
    ensures b.tags.None? ==> f.tags == []
    ensures f.published <==> b.published == Some(true)
    ensures f.showInAllPortfolios <==> b.showInAllPortfolios == Some(true)
  {
    BlogForm(
      OrString(b.title, ""), OrString(b.slug, ""), OrString(b.excerpt, ""),
      OrString(b.content, ""), OrString(b.coverImage, ""), OrString(b.category, ""),
      b.tags.GetOr([]), OrString(b.author, ""), b.published.GetOr(false),
      OrString(b.readTime, "0"), b.showInAllPortfolios.GetOr(false))
  }

  /** The text inputs wired to `handleChange`. */
  datatype TextField = Title | Slug | Excerpt | CoverImage | Category | Author

  /** The checkboxes wired to `handleChange`. */
  datatype FlagField = Published | ShowInAllPortfolios

  /** One `handleChange` event: a text input's new value, or a checkbox's new state. */
  datatype FieldEdit = TextEdit(field: TextField, value: string) | FlagEdit(flag: FlagField, checked: bool)

  /** `[name]: value` on the form. */
  function SetText(f: BlogForm, field: TextField, value: string): BlogForm {
    match field
    case Title => f.(title := value)
    case Slug => f.(slug := value)
    case Excerpt => f.(excerpt := value)
    case CoverImage => f.(coverImage := value)
    case Category => f.(category := value)
    case Author => f.(author := value)
  }

  /** `[name]: checked` on the form. */
  function SetFlag(f: BlogForm, flag: FlagField, checked: bool): BlogForm {
    match flag
    case Published => f.(published := checked)
    case ShowInAllPortfolios => f.(showInAllPortfolios := checked)
  }

  /** The form and the auto-slug switch after one `handleChange` event. */
  datatype Edited = Edited(form: BlogForm, autoSlug: bool)

  /**
   * `handleChange`: with auto-slug on, a title edit also regenerates the slug; a slug edit
   * switches auto-slug off for good; any other edit sets just that field.
   */
  function HandleChangeSpec(f: BlogForm, autoSlug: bool, e: FieldEdit): (r: Edited)
    ensures e.TextEdit? && e.field == Title && autoSlug ==>
      r.form == f.(title := e.value, slug := GenerateSlug(e.value)) && r.autoSlug
    ensures e.TextEdit? && e.field == Title && !autoSlug ==> r.form == f.(title := e.value) && !r.autoSlug
    ensures e.TextEdit? && e.field == Slug ==> r.form == f.(slug := e.value) && !r.autoSlug
    ensures e.FlagEdit? || (e.field != Title && e.field != Slug) ==>
      r.autoSlug == autoSlug && r.form.title == f.title && r.form.slug == f.slug
    ensures r.form.tags == f.tags && r.form.content == f.content && r.form.readTime == f.readTime
  {
    match e
    case TextEdit(Title, value) =>
      if autoSlug then Edited(f.(title := value, slug := GenerateSlug(value)), true)
      else Edited(SetText(f, Title, value), false)
    case TextEdit(Slug, value) => Edited(SetText(f, Slug, value), false)
    case TextEdit(field, value) => Edited(SetText(f, field, value), autoSlug)
    case FlagEdit(flag, checked) => Edited(SetFlag(f, flag, checked), autoSlug)
  }

  /** While auto-slug is on, the slug is always the slug of the current title. */
  lemma AutoSlugFollowsTitle(f: BlogForm, e: FieldEdit)
    requires f.slug == GenerateSlug(f.title)
    ensures HandleChangeSpec(f, true, e).autoSlug ==>
      HandleChangeSpec(f, true, e).form.slug == GenerateSlug(HandleChangeSpec(f, true, e).form.title)
  {
  }

  /** Once off, auto-slug stays off whatever is edited. */
  lemma AutoSlugStaysOff(f: BlogForm, e: FieldEdit)
    ensures !HandleChangeSpec(f, false, e).autoSlug
  {
  }

  const RequiredMessage := "Title and content are required!"

  /** The blog dialog's component state. */
  class BlogEditor {
    var form: BlogForm
    var tagInput: string
    var autoSlug: bool
    var error: string

    /** A fresh dialog: empty form, auto-slug on. */
    constructor()
      ensures form == EmptyForm && tagInput == "" && autoSlug && error == ""
    {
      form := EmptyForm;
      tagInput := "";
      autoSlug := true;
      error := "";
    }

    /** The effect run when an existing blog is opened: the form is filled and auto-slug is off. */
    method Load(b: BlogRecord)
      modifies this
      ensures form == LoadedForm(b) && !autoSlug
      ensures tagInput == old(tagInput) && error == old(error)
    {
      form := LoadedForm(b);
      autoSlug := false;
    }

    method HandleChange(e: FieldEdit)
      modifies this
      ensures Edited(form, autoSlug) == HandleChangeSpec(old(form), old(autoSlug), e)
      ensures tagInput == old(tagInput) && error == old(error)
    {
      match e
      case TextEdit(Title, value) =>
        if autoSlug {
          form := form.(title := value, slug := GenerateSlug(value));
        } else {
          form := SetText(form, Title, value);
        }
      case TextEdit(Slug, value) =>
        autoSlug := false;
        form := SetText(form, Slug, value);
      case TextEdit(field, value) =>
        form := SetText(form, field, value);
      case FlagEdit(flag, checked) =>
        form := SetFlag(form, flag, checked);
    }

    /** `handleContentChange`: the content, and the read time printed as a decimal string. */
    method HandleContentChange(content: string)
      modifies this
      ensures form == old(form).(content := content, readTime := IntToString(ReadTime(content)))
      ensures autoSlug == old(autoSlug) && tagInput == old(tagInput) && error == old(error)
    {
      var minutes := ReadTime(content);
      var text := IntToString(minutes);
      var f := form.(content := content, readTime := text);
      form := f;
    }

    /** The tag input's `onChange`. */
    method SetTagInput(value: string)
      modifies this
      ensures tagInput == value
      ensures form == old(form) && autoSlug == old(autoSlug) && error == old(error)
    {
      tagInput := value;
    }

    /**
     * `addTag`: the trimmed input is appended when it is non-empty and not yet a tag, and then
     * the input is cleared; otherwise nothing changes.
     */
    method AddTag()
      modifies this
      ensures form == old(form).(tags := TextLists.AddUnique(old(form.tags), old(tagInput)))
      ensures tagInput == if TextLists.AcceptsUnique(old(form.tags), old(tagInput)) then "" else old(tagInput)
      ensures autoSlug == old(autoSlug) && error == old(error)
    {
      if TextLists.AcceptsUnique(form.tags, tagInput) {
        form := form.(tags := TextLists.AddUnique(form.tags, tagInput));
        tagInput := "";
      }
    }

    /** `removeTag(index)`: exactly that position goes, the other tags keep their order. */
    method RemoveTag(index: int)
      modifies this
      ensures form == old(form).(tags := Lists.RemoveIndex(old(form.tags), index))
      ensures tagInput == old(tagInput) && autoSlug == old(autoSlug) && error == old(error)
    {
      form := form.(tags := Lists.RemoveIndex(form.tags, index));
    }

    /**
     * `handleSubmit`'s guard: without a title or without content the error is shown and no
     * request is sent; otherwise the error is cleared and the form goes out.
     */
    method Submit() returns (send: bool)
      modifies this
      ensures send <==> form.title != "" && form.content != ""
      ensures error == if send then "" else RequiredMessage
      ensures form == old(form) && tagInput == old(tagInput) && autoSlug == old(autoSlug)
    {
      if form.title == "" || form.content == "" {
        error := RequiredMessage;
        return false;
      }
      error := "";
      return true;
    }
  }
}
