/** PowerPoint's replace_text: what it does to the texts of the shapes and what it reports. */
module SlideText {
  import opened Strings
  import opened TextReplace
  import opened Wrappers

  type NonEmpty = s: string | s != [] witness ['a']

  // How a call changes one text and counts matches in one.
  datatype Edit = Edit(replace: string -> string, count: string -> nat)

  // ---------------------------------------------------------------- the shapes' texts

  // A shape's text range; a shape without text has None.
  class TextRange {
    var text: Option<string>
  }

  ghost function TextsOf(ranges: seq<TextRange>): (texts: seq<Option<string>>)
    reads ranges
    ensures |texts| == |ranges| && forall i :: 0 <= i < |ranges| ==> texts[i] == ranges[i].text
  {
    if ranges == [] then [] else TextsOf(ranges[..|ranges| - 1]) + [ranges[|ranges| - 1].text]
  }

  function Replaced(text: Option<string>, e: Edit): Option<string> {
    if text.Some? then Some(e.replace(text.value)) else None
  }

  predicate Touches(text: Option<string>, e: Edit) {
    text.Some? && e.replace(text.value) != text.value
  }

  function MatchesIn(text: Option<string>, e: Edit): nat {
    if text.Some? then e.count(text.value) else 0
  }

  // The count is taken from a range's text after it has been replaced.
  function Counted(text: Option<string>, e: Edit): nat {
    if Touches(text, e) then e.count(e.replace(text.value)) else 0
  }

  function Reported(texts: seq<Option<string>>, e: Edit): nat {
    if texts == [] then 0 else Reported(texts[..|texts| - 1], e) + Counted(texts[|texts| - 1], e)
  }

  function Matches(texts: seq<Option<string>>, e: Edit): nat {
    if texts == [] then 0 else Matches(texts[..|texts| - 1], e) + MatchesIn(texts[|texts| - 1], e)
  }

  function Touched(texts: seq<Option<string>>, e: Edit): seq<nat> {
    if texts == [] then []
    else Touched(texts[..|texts| - 1], e) + if Touches(texts[|texts| - 1], e) then [|texts| - 1] else []
  }

  // Every text with a match is changed, if only in case.
  ghost predicate AllTouched(texts: seq<Option<string>>, e: Edit) {
    forall i :: 0 <= i < |texts| && MatchesIn(texts[i], e) > 0 ==> Touches(texts[i], e)
  }

  method ReplaceEach(ranges: seq<TextRange>, e: Edit) returns (replacements: nat, touched: seq<nat>)
    requires forall i, j :: 0 <= i < j < |ranges| ==> ranges[i] != ranges[j]
    modifies ranges
    ensures forall i :: 0 <= i < |ranges| ==> ranges[i].text == Replaced(old(ranges[i].text), e)
    ensures replacements == Reported(old(TextsOf(ranges)), e) && touched == Touched(old(TextsOf(ranges)), e)
  {
    ghost var texts := TextsOf(ranges);
    touched, replacements := [], 0;
    for i := 0 to |ranges|
      invariant forall k :: 0 <= k < i ==> ranges[k].text == Replaced(texts[k], e)
      invariant forall k :: i <= k < |ranges| ==> ranges[k].text == texts[k]
      invariant replacements == Reported(texts[..i], e)
      invariant touched == Touched(texts[..i], e)
    {
      assert texts[..i + 1][..i] == texts[..i];
      if ranges[i].text.None? { continue; }
      var next := e.replace(ranges[i].text.value);
      if next == ranges[i].text.value { continue; }
      ranges[i].text := Some(next);
      replacements := replacements + e.count(ranges[i].text.value);
      touched := touched + [i];
    }
    assert texts[..|ranges|] == texts;
  }

  // ---------------------------------------------------------------- powerpoint.replace_text

  datatype Query = Query(search: NonEmpty, replacement: NonEmpty, matchCase: bool, lower: char -> char)
  {
    function Fold(s: string): (f: string)
      ensures |f| == |s|
    {
      if matchCase then s else Lower(lower, s)
    }

    // replaceAllText.
    function Replace(s: string): string {
      if matchCase then ReplaceAllText(s, search, replacement)
      else Substitute([], s, Fold(s), Fold(search), replacement)
    }

    function Count(s: string): nat {
      CountMatches(Fold(s), Fold(search))
    }

    function Editing(): Edit {
      Edit(s => Replace(s), s => Count(s))
    }

    // The replacement stands for itself.
    predicate IsLiteral() {
      matchCase || !HasPattern(replacement)
    }

    // No match can join a replacement to its surroundings.
    ghost predicate IsSeamFree() {
      SeamFree(Fold(search), Fold(replacement))
    }

    // Replacing changes at most the case.
    predicate KeepsLetters() {
      Fold(search) == Fold(replacement)
    }
  }

  datatype Result = InvalidArgument | Done(replacements: nat, touched: seq<nat>)

  method ReplaceText(ranges: seq<TextRange>, search: string, replacement: string, matchCase: bool, lower: char -> char)
    returns (result: Result)
    requires forall i, j :: 0 <= i < j < |ranges| ==> ranges[i] != ranges[j]
    modifies ranges
    ensures result.InvalidArgument? <==> search == [] || replacement == []
    ensures result.InvalidArgument? ==> TextsOf(ranges) == old(TextsOf(ranges))
    ensures result.Done? ==>
              var e, texts := Query(search, replacement, matchCase, lower).Editing(), old(TextsOf(ranges));
              && (forall i :: 0 <= i < |ranges| ==> ranges[i].text == Replaced(texts[i], e))
              && result == Done(Reported(texts, e), Touched(texts, e))
  {
    if search == [] || replacement == [] { return InvalidArgument; }
    var replacements, touched := ReplaceEach(ranges, Query(search, replacement, matchCase, lower).Editing());
    result := Done(replacements, touched);
  }

  // ---------------------------------------------------------------- one text

  lemma {:induction false} ReplaceFolds(c: Query, s: string)
    requires c.IsLiteral()
    ensures c.Fold(c.Replace(s)) == ReplaceAllText(c.Fold(s), c.Fold(c.search), c.Fold(c.replacement))
  {
    if !c.matchCase {
      FoldedReplace(c.lower, [], s, c.Fold(c.search), c.replacement);
      ReplaceIsRewrite(c.Fold(s), c.Fold(c.search), c.Fold(c.replacement));
    }
  }

  // A text without a match stays; one with a match changes by more than case, unless the
  // replacement is the search text up to case.
  lemma {:induction false} ChangesExactly(c: Query, s: string)
    requires c.IsLiteral()
    ensures c.Count(s) == 0 ==> c.Replace(s) == s
    ensures c.Fold(c.Replace(s)) == c.Fold(s) <==> c.Count(s) == 0 || c.KeepsLetters()
  {
    ReplaceFolds(c, s);
    UnchangedExactly(c.Fold(s), c.Fold(c.search), c.Fold(c.replacement));
    if c.Count(s) == 0 { NothingToSubstitute([], s, c.Fold(s), c.Fold(c.search), c.replacement); }
  }

  lemma {:induction false} CountMultiplies(c: Query, s: string)
    requires c.IsLiteral() && c.IsSeamFree()
    ensures c.Count(c.Replace(s)) == Times(c.Count(s), c.Count(c.replacement))
  {
    ReplaceFolds(c, s);
    MatchesMultiply(c.Fold(s), c.Fold(c.search), c.Fold(c.replacement));
  }

  lemma {:induction false} CountedMultiplies(text: Option<string>, c: Query)
    requires c.IsLiteral() && c.IsSeamFree() && !c.KeepsLetters()
    ensures Counted(text, c.Editing()) == Times(MatchesIn(text, c.Editing()), c.Count(c.replacement))
  {
    if text.Some? {
      CountMultiplies(c, text.value);
      ChangesExactly(c, text.value);
    }
  }

  // Replacing that changes at most the case keeps the number of matches.
  lemma {:induction false} CountStays(text: Option<string>, c: Query)
    requires c.IsLiteral() && c.KeepsLetters()
    ensures Counted(text, c.Editing()) == if Touches(text, c.Editing()) then MatchesIn(text, c.Editing()) else 0
  {
    if text.Some? { ChangesExactly(c, text.value); }
  }

  // A text is changed only if it holds a match, and then is, if the letters are not kept.
  lemma {:induction false} TouchesExactly(text: Option<string>, c: Query)
    requires c.IsLiteral()
    ensures Touches(text, c.Editing()) ==> MatchesIn(text, c.Editing()) > 0
    ensures !c.KeepsLetters() && MatchesIn(text, c.Editing()) > 0 ==> Touches(text, c.Editing())
  {
    if text.Some? { ChangesExactly(c, text.value); }
  }

  // ---------------------------------------------------------------- all texts

  lemma {:induction false} SumMultiplies(texts: seq<Option<string>>, e: Edit, d: nat)
    requires forall i :: 0 <= i < |texts| ==> Counted(texts[i], e) == Times(MatchesIn(texts[i], e), d)
    ensures Reported(texts, e) == Times(Matches(texts, e), d)
  {
    if texts != [] {
      var n := |texts| - 1;
      SumMultiplies(texts[..n], e, d);
      TimesAdds(Matches(texts[..n], e), MatchesIn(texts[n], e), d);
    }
  }

  lemma {:induction false} ReportedMultiplies(texts: seq<Option<string>>, c: Query)
    requires c.IsLiteral() && c.IsSeamFree() && !c.KeepsLetters()
    ensures Reported(texts, c.Editing()) == Times(Matches(texts, c.Editing()), c.Count(c.replacement))
  {
    forall i | 0 <= i < |texts|
      ensures Counted(texts[i], c.Editing()) == Times(MatchesIn(texts[i], c.Editing()), c.Count(c.replacement))
    {
      CountedMultiplies(texts[i], c);
    }
    SumMultiplies(texts, c.Editing(), c.Count(c.replacement));
  }

  predicate CountsIfTouched(text: Option<string>, e: Edit) {
    Counted(text, e) == if Touches(text, e) then MatchesIn(text, e) else 0
  }

  lemma {:induction false} SumIsWholeExactly(texts: seq<Option<string>>, e: Edit)
    requires forall i :: 0 <= i < |texts| ==> CountsIfTouched(texts[i], e)
    ensures Reported(texts, e) <= Matches(texts, e)
    ensures Reported(texts, e) == Matches(texts, e) <==> AllTouched(texts, e)
  {
    if texts != [] {
      var n := |texts| - 1;
      SumIsWholeExactly(texts[..n], e);
      assert CountsIfTouched(texts[n], e);
      if AllTouched(texts[..n], e) && (MatchesIn(texts[n], e) > 0 ==> Touches(texts[n], e)) {
        forall i | 0 <= i < |texts| && MatchesIn(texts[i], e) > 0 ensures Touches(texts[i], e) {
          if i < n { assert texts[..n][i] == texts[i]; }
        }
      }
    }
  }

  // Replacing that changes at most the case reports the matches of the texts it touches.
  lemma {:induction false} CaseChangeIsRightExactly(texts: seq<Option<string>>, c: Query)
    requires c.IsLiteral() && c.KeepsLetters()
    ensures Reported(texts, c.Editing()) <= Matches(texts, c.Editing())
    ensures Reported(texts, c.Editing()) == Matches(texts, c.Editing()) <==> AllTouched(texts, c.Editing())
  {
    forall i | 0 <= i < |texts| ensures CountsIfTouched(texts[i], c.Editing()) {
      CountStays(texts[i], c);
    }
    SumIsWholeExactly(texts, c.Editing());
  }

  // The number reported is the number of matches there were exactly when there were
  // none, or the replacement holds the search text once and is not just it, or it is
  // just it up to case and every text with a match is changed.
  lemma {:induction false} ReportIsRightExactly(texts: seq<Option<string>>, c: Query)
    requires c.IsLiteral() && c.IsSeamFree()
    ensures var e := c.Editing();
            Reported(texts, e) == Matches(texts, e) <==>
            || Matches(texts, e) == 0
            || (if c.KeepsLetters() then AllTouched(texts, e) else c.Count(c.replacement) == 1)
  {
    if c.KeepsLetters() {
      CaseChangeIsRightExactly(texts, c);
    } else {
      ReportedMultiplies(texts, c);
      TimesOne(Matches(texts, c.Editing()), c.Count(c.replacement));
    }
  }

  // One character has no seams.
  lemma {:induction false} OneCharacterIsRightExactly(texts: seq<Option<string>>, c: Query)
    requires |c.search| == 1 && c.IsLiteral()
    ensures var e := c.Editing();
            Reported(texts, e) == Matches(texts, e) <==>
            || Matches(texts, e) == 0
            || (if c.KeepsLetters() then AllTouched(texts, e) else c.Count(c.replacement) == 1)
  {
    ReportIsRightExactly(texts, c);
  }

  // With match_case a replacement by the search text itself touches nothing.
  lemma {:induction false} SameTextReportsZero(texts: seq<Option<string>>, c: Query)
    requires c.matchCase && c.replacement == c.search
    ensures Reported(texts, c.Editing()) == 0 && Touched(texts, c.Editing()) == []
  {
    if texts != [] {
      var n := |texts| - 1;
      SameTextReportsZero(texts[..n], c);
      if texts[n].Some? { UnchangedExactly(texts[n].value, c.search, c.search); }
    }
  }

  // With a replacement that shares no character with the search text the tool
  // reports zero replacements, however many it made.
  lemma {:induction false} ReportsZero(texts: seq<Option<string>>, c: Query)
    requires c.IsLiteral() && Disjoint(c.Fold(c.search), c.Fold(c.replacement))
    ensures Reported(texts, c.Editing()) == 0
  {
    DisjointIsSeamFree(c.Fold(c.search), c.Fold(c.replacement));
    DisjointHasNone(c.Fold(c.search), c.Fold(c.replacement));
    ReportedMultiplies(texts, c);
    TimesOne(Matches(texts, c.Editing()), c.Count(c.replacement));
  }

  // The shapes it reports as touched are those that held a match, each once and in order.
  lemma {:induction false} TouchedExactly(texts: seq<Option<string>>, c: Query, i: nat)
    requires c.IsLiteral() && !c.KeepsLetters() && i < |texts|
    ensures i in Touched(texts, c.Editing()) <==> MatchesIn(texts[i], c.Editing()) > 0
    ensures forall j, k :: 0 <= j < k < |Touched(texts, c.Editing())| ==>
              Touched(texts, c.Editing())[j] < Touched(texts, c.Editing())[k]
  {
    TouchedInOrder(texts, c.Editing());
    TouchedAre(texts, c.Editing(), i);
    TouchesExactly(texts[i], c);
  }

  lemma {:induction false} TouchedInOrder(texts: seq<Option<string>>, e: Edit)
    ensures forall j, k :: 0 <= j < k < |Touched(texts, e)| ==> Touched(texts, e)[j] < Touched(texts, e)[k] < |texts|
    ensures forall k :: 0 <= k < |Touched(texts, e)| ==> Touched(texts, e)[k] < |texts|
  {
    if texts != [] { TouchedInOrder(texts[..|texts| - 1], e); }
  }

  lemma {:induction false} TouchedAre(texts: seq<Option<string>>, e: Edit, i: nat)
    ensures i in Touched(texts, e) <==> i < |texts| && Touches(texts[i], e)
  {
    if texts != [] { TouchedAre(texts[..|texts| - 1], e, i); }
  }

  lemma {:induction false} ReportedOne(s: string, e: Edit)
    ensures Matches([Some(s)], e) == e.count(s)
    ensures Reported([Some(s)], e) == if e.replace(s) != s then e.count(e.replace(s)) else 0
  {
    assert [Some(s)][..0] == [];
  }

  lemma EditingCounts(c: Query, s: string)
    ensures c.Editing().replace(s) == c.Replace(s) && c.Editing().count(s) == c.Count(s)
  {}

  // Across a seam the surroundings decide: replacing "aa" by "a", which brings in no
  // match, the number is right for "aaa" and wrong for "aa".
  lemma {:induction false} SeamsDecide(lower: char -> char)
    ensures var e := Query("aa", "a", true, lower).Editing();
            && EndsInto("aa", "a", 1) && e.count("a") == 0
            && Reported([Some("aaa")], e) == 1 && Matches([Some("aaa")], e) == 1
            && Reported([Some("aa")], e) == 0 && Matches([Some("aa")], e) == 1
  {
    var c := Query("aa", "a", true, lower);
    EditingCounts(c, "aaa");
    EditingCounts(c, "aa");
    EditingCounts(c, "a");
    ReportedOne("aaa", c.Editing());
    ReportedOne("aa", c.Editing());
    CountsOfAs("aaa", "a");
    CountsOfAs("aa", "");
    assert "a" + "" == "a";
  }

  lemma {:induction false} CountsOfAs(s: string, rest: string)
    requires (s == "aa" && rest == "") || (s == "aaa" && rest == "a")
    ensures CountMatches(s, "aa") == 1 && ReplaceAllText(s, "aa", "a") == "a" + rest
    ensures CountMatches("a" + rest, "aa") == |rest|
  {
    assert At(s, "aa", 0);
    SplitHead(s, "aa");
    assert s[2..] == rest;
    assert Scan(rest, "aa", 0) == -1 && Split(rest, "aa") == [rest];
    var parts := Split(s, "aa");
    assert parts == [[]] + [rest] && parts[1..] == [rest] && parts[0] == [];
    assert Join(parts, "a") == [] + "a" + Join([rest], "a") && Join([rest], "a") == rest;
    if rest == "" {
      assert Scan("a", "aa", 0) == -1;
    } else {
      var both := "a" + rest;
      assert both == "aa" && At(both, "aa", 0);
      SplitHead(both, "aa");
      assert both[2..] == "" && Scan("", "aa", 0) == -1 && CountMatches("", "aa") == 0;
    }
  }
}
