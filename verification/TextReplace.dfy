/** Text replacement in PowerPoint, with and without regard to case, counting matches,
    and the escaping that makes a search text a literal pattern. */
module TextReplace {
  import opened Strings
  import opened Wrappers

  // String.prototype.split by a non-empty separator.
  function Split(s: string, q: string): seq<string>
    requires q != []
    decreases |s|
  {
    var i := Scan(s, q, 0);
    if i < 0 then [s] else [s[..i]] + Split(s[i + |q|..], q)
  }

  function Join(parts: seq<string>, r: string): string {
    if parts == [] then []
    else if |parts| == 1 then parts[0]
    else parts[0] + r + Join(parts[1..], r)
  }

  function ReplaceAllText(s: string, q: string, r: string): string
    requires q != []
  {
    Join(Split(s, q), r)
  }

  // matchAll of a literal pattern: from each match the search goes on behind it.
  function CountMatches(s: string, q: string): nat
    requires q != []
    decreases |s|
  {
    var i := Scan(s, q, 0);
    if i < 0 then 0 else 1 + CountMatches(s[i + |q|..], q)
  }

  // ---------------------------------------------------------------- leftmost replacement

  // One walk over the text: at an occurrence replace it, elsewhere copy a character.
  function Rewrite(s: string, q: string, r: string): string
    requires q != []
    decreases |s|
  {
    if At(s, q, 0) then r + Rewrite(s[|q|..], q, r)
    else if s == [] then []
    else [s[0]] + Rewrite(s[1..], q, r)
  }

  lemma {:induction false} ScanShifts(s: string, q: string)
    requires q != [] && s != [] && !At(s, q, 0)
    ensures Scan(s, q, 0) == if Scan(s[1..], q, 0) < 0 then -1 else 1 + Scan(s[1..], q, 0)
  {
    ScanIsLeast(s, q, 0);
    ScanIsLeast(s[1..], q, 0);
    var i, j := Scan(s, q, 0), Scan(s[1..], q, 0);
    if i > 0 { AtTail(s, q, i); }
    if j >= 0 { AtTail(s, q, j + 1); }
  }

  lemma {:induction false} AtTail(s: string, q: string, p: int)
    requires s != [] && p > 0
    ensures At(s, q, p) <==> At(s[1..], q, p - 1)
  {
    AtIsSlice(s, q, p);
    AtIsSlice(s[1..], q, p - 1);
    if p + |q| <= |s| { assert s[1..][p - 1..p - 1 + |q|] == s[p..p + |q|]; }
  }

  // The splitting of a text that does not start with the separator.
  lemma {:induction false} SplitTail(s: string, q: string)
    requires q != [] && s != [] && !At(s, q, 0)
    ensures var t := Split(s[1..], q); t != [] && Split(s, q) == [[s[0]] + t[0]] + t[1..]
    ensures CountMatches(s, q) == CountMatches(s[1..], q)
  {
    ScanShifts(s, q);
    var j := Scan(s[1..], q, 0);
    if j < 0 {
      assert s == [s[0]] + s[1..];
    } else {
      assert s[..j + 1] == [s[0]] + s[1..][..j];
      assert s[j + 1 + |q|..] == s[1..][j + |q|..];
    }
  }

  lemma {:induction false} JoinHead(c: char, parts: seq<string>, r: string)
    requires parts != []
    ensures Join([[c] + parts[0]] + parts[1..], r) == [c] + Join(parts, r)
  {
    var more := [[c] + parts[0]] + parts[1..];
    assert more[1..] == parts[1..];
    if |parts| > 1 { assert ([c] + parts[0]) + r + Join(parts[1..], r) == [c] + (parts[0] + r + Join(parts[1..], r)); }
  }

  lemma {:induction false} JoinEmpty(parts: seq<string>, r: string)
    requires parts != []
    ensures Join([[]] + parts, r) == r + Join(parts, r)
  {
    assert ([[]] + parts)[1..] == parts;
    assert [] + r + Join(parts, r) == r + Join(parts, r);
  }

  lemma {:induction false} SplitHead(s: string, q: string)
    requires q != [] && At(s, q, 0)
    ensures Split(s, q) == [[]] + Split(s[|q|..], q) && Split(s[|q|..], q) != []
    ensures CountMatches(s, q) == 1 + CountMatches(s[|q|..], q)
  {
    ScanIsLeast(s, q, 0);
    assert s[..0] == [];
  }

  // Splitting and joining is leftmost, non-overlapping replacement.
  lemma {:induction false} ReplaceIsRewrite(s: string, q: string, r: string)
    requires q != []
    ensures ReplaceAllText(s, q, r) == Rewrite(s, q, r)
    decreases |s|
  {
    if At(s, q, 0) {
      var rest := s[|q|..];
      SplitHead(s, q);
      ReplaceIsRewrite(rest, q, r);
      JoinEmpty(Split(rest, q), r);
    } else if s != [] {
      SplitTail(s, q);
      ReplaceIsRewrite(s[1..], q, r);
      JoinHead(s[0], Split(s[1..], q), r);
    }
  }

  // ---------------------------------------------------------------- what it keeps

  lemma {:induction false} RewriteLength(s: string, q: string, r: string)
    requires q != []
    ensures |Rewrite(s, q, r)| == |s| + CountMatches(s, q) * (|r| - |q|)
    decreases |s|
  {
    if At(s, q, 0) {
      SplitHead(s, q);
      RewriteLength(s[|q|..], q, r);
      Distribute(CountMatches(s[|q|..], q), |r| - |q|);
    } else if s != [] {
      SplitTail(s, q);
      RewriteLength(s[1..], q, r);
    }
  }

  lemma Distribute(n: nat, d: int)
    ensures (1 + n) * d == d + n * d
  {}

  lemma {:induction false} NoMatchesUnchanged(s: string, q: string, r: string)
    requires q != [] && CountMatches(s, q) == 0
    ensures Rewrite(s, q, r) == s
    decreases |s|
  {
    if At(s, q, 0) {
      SplitHead(s, q);
    } else if s != [] {
      SplitTail(s, q);
      NoMatchesUnchanged(s[1..], q, r);
    }
  }

  lemma {:induction false} SameTextUnchanged(s: string, q: string)
    requires q != []
    ensures Rewrite(s, q, q) == s
    decreases |s|
  {
    if At(s, q, 0) {
      SameTextUnchanged(s[|q|..], q);
      AtIsSlice(s, q, 0);
      assert s == s[0..|q|] + s[|q|..];
    } else if s != [] {
      SameTextUnchanged(s[1..], q);
    }
  }

  lemma StartsReplaced(s: string, q: string, r: string)
    requires q != [] && At(s, q, 0)
    ensures |Rewrite(s, q, r)| >= |r| && Rewrite(s, q, r)[0..|r|] == r
  {}

  lemma {:induction false} ChangesAreSeen(s: string, q: string, r: string)
    requires q != [] && Rewrite(s, q, r) == s && |r| == |q| && r != q
    ensures CountMatches(s, q) == 0
    decreases |s|
  {
    if At(s, q, 0) {
      AtIsSlice(s, q, 0);
      StartsReplaced(s, q, r);
    } else if s != [] {
      SplitTail(s, q);
      assert Rewrite(s, q, r)[1..] == Rewrite(s[1..], q, r);
      ChangesAreSeen(s[1..], q, r);
    }
  }

  // The text is left as it was exactly when nothing matched or the replacement is the
  // search text itself: the guard that skips a shape skips nothing else.
  lemma {:induction false} UnchangedExactly(s: string, q: string, r: string)
    requires q != []
    ensures ReplaceAllText(s, q, r) == s <==> CountMatches(s, q) == 0 || r == q
    ensures |ReplaceAllText(s, q, r)| == |s| + CountMatches(s, q) * (|r| - |q|)
  {
    ReplaceIsRewrite(s, q, r);
    RewriteLength(s, q, r);
    if CountMatches(s, q) == 0 { NoMatchesUnchanged(s, q, r); }
    if r == q { SameTextUnchanged(s, q); }
    if ReplaceAllText(s, q, r) == s && r != q {
      if |r| == |q| { ChangesAreSeen(s, q, r); } else { NonZeroFactor(CountMatches(s, q), |r| - |q|); }
    }
  }

  lemma NonZeroFactor(n: nat, d: int)
    requires n * d == 0 && d != 0
    ensures n == 0
  {}

  // ---------------------------------------------------------------- matches in the new text

  predicate Disjoint(q: string, r: string) {
    forall c :: c in q ==> c !in r
  }

  // A proper part of q, k long, from its start ends r.
  predicate EndsInto(q: string, r: string, k: int) {
    0 < k < |q| && k <= |r| && r[|r| - k..] == q[..k]
  }

  // A proper part of q, k long, up to its end starts r.
  predicate StartsFrom(q: string, r: string, k: int) {
    0 < k < |q| && k <= |r| && r[..k] == q[|q| - k..]
  }

  // r lies inside q, touching neither of its ends.
  predicate LiesIn(q: string, r: string, i: int) {
    0 < i && i + |r| < |q| && q[i..i + |r|] == r
  }

  lemma OccurrenceShares(r: string, q: string, p: int)
    requires q != [] && At(r, q, p)
    ensures r[p] in q
  {
    assert r[p + 0] == q[0];
  }

  lemma DisjointHasNone(q: string, r: string)
    requires q != [] && Disjoint(q, r)
    ensures r != q && CountMatches(r, q) == 0
  {
    assert q[0] in q;
    ScanIsLeast(r, q, 0);
    if Scan(r, q, 0) >= 0 { OccurrenceShares(r, q, Scan(r, q, 0)); }
  }

  // No match can lie across the edge of an inserted replacement.
  ghost predicate SeamFree(q: string, r: string) {
    forall k :: !EndsInto(q, r, k) && !StartsFrom(q, r, k) && !LiesIn(q, r, k)
  }

  lemma DisjointIsSeamFree(q: string, r: string)
    requires r != [] && Disjoint(q, r)
    ensures SeamFree(q, r)
  {
    forall k ensures !EndsInto(q, r, k) && !StartsFrom(q, r, k) && !LiesIn(q, r, k) {
      if 0 < k < |q| && k <= |r| {
        assert r[|r| - k..][0] == r[|r| - k] && q[..k][0] == q[0] && q[0] in q;
        assert r[..k][0] == r[0] && q[|q| - k..][0] == q[|q| - k] && q[|q| - k] in q;
      }
      if 0 < k && k + |r| < |q| { assert q[k..k + |r|][0] == q[k] && q[k] in q; }
    }
  }

  // An occurrence of q starts in s and ends in t.
  predicate Joins(s: string, t: string, q: string, p: int) {
    p < |s| < p + |q| && At(s + t, q, p)
  }

  ghost predicate Apart(s: string, t: string, q: string) {
    forall p :: !Joins(s, t, q, p)
  }

  lemma ApartStep(s: string, t: string, q: string, n: nat)
    requires Apart(s, t, q) && n <= |s|
    ensures Apart(s[n..], t, q)
  {
    assert s + t == s[..n] + (s[n..] + t);
    forall p ensures !Joins(s[n..], t, q, p) {
      if p >= 0 { AtBehind(s[..n], s[n..] + t, q, n + p); }
      assert !Joins(s, t, q, n + p);
    }
  }

  lemma AtBehind(front: string, w: string, q: string, p: int)
    requires p >= |front|
    ensures At(front + w, q, p) <==> At(w, q, p - |front|)
  {
    AtIsSlice(front + w, q, p);
    AtIsSlice(w, q, p - |front|);
    if p + |q| <= |front| + |w| { assert (front + w)[p..p + |q|] == w[p - |front|..p - |front| + |q|]; }
  }

  lemma AtFront(s: string, t: string, q: string, p: int)
    requires p + |q| <= |s|
    ensures At(s + t, q, p) <==> At(s, q, p)
  {
    AtIsSlice(s + t, q, p);
    AtIsSlice(s, q, p);
    if 0 <= p { assert (s + t)[p..p + |q|] == s[p..p + |q|]; }
  }

  // Matches of two texts that no match joins are counted one after the other.
  lemma {:induction false} CountsAdd(s: string, t: string, q: string)
    requires q != [] && Apart(s, t, q)
    ensures CountMatches(s + t, q) == CountMatches(s, q) + CountMatches(t, q)
    decreases |s|
  {
    if s == [] {
      assert s + t == t;
    } else if |q| <= |s| && At(s, q, 0) {
      AtFront(s, t, q, 0);
      SplitHead(s, q);
      SplitHead(s + t, q);
      assert (s + t)[|q|..] == s[|q|..] + t;
      ApartStep(s, t, q, |q|);
      CountsAdd(s[|q|..], t, q);
    } else {
      if |q| <= |s| { AtFront(s, t, q, 0); }
      assert !Joins(s, t, q, 0);
      SplitTail(s, q);
      SplitTail(s + t, q);
      assert (s + t)[1..] == s[1..] + t;
      ApartStep(s, t, q, 1);
      CountsAdd(s[1..], t, q);
    }
  }

  // What an occurrence across an edge says of the text on its left ...
  lemma JoinEnds(r: string, t: string, q: string, p: int)
    requires Joins(r, t, q, p)
    ensures EndsInto(q, r, |r| - p)
  {
    AtIsSlice(r + t, q, p);
    assert r[p..] == (r + t)[p..p + |q|][..|r| - p];
  }

  // ... and of the replacement on its right.
  lemma JoinStarts(s: string, r: string, t: string, q: string, p: int)
    requires Joins(s, r + t, q, p)
    ensures var i := |s| - p; if |q| - i <= |r| then StartsFrom(q, r, |q| - i) else LiesIn(q, r, i)
  {
    var w, i := s + (r + t), |s| - p;
    AtIsSlice(w, q, p);
    if |q| - i <= |r| {
      assert r[..|q| - i] == w[p..p + |q|][i..];
    } else {
      assert r == w[p..p + |q|][i..i + |r|];
    }
  }

  // Nothing reaches out of a replacement, whatever follows it.
  lemma ReplacementIsApart(q: string, r: string, t: string)
    requires SeamFree(q, r)
    ensures Apart(r, t, q)
  {
    forall p ensures !Joins(r, t, q, p) {
      if Joins(r, t, q, p) { JoinEnds(r, t, q, p); }
    }
  }

  // Nothing reaches into one.
  lemma CopyIsApart(s: string, q: string, r: string, t: string)
    requires SeamFree(q, r)
    ensures Apart(s, r + t, q)
  {
    forall p ensures !Joins(s, r + t, q, p) {
      if Joins(s, r + t, q, p) { JoinStarts(s, r, t, q, p); }
    }
  }

  lemma NoneBeforeFirst(s: string, q: string)
    requires q != [] && Scan(s, q, 0) >= 0
    ensures CountMatches(s[..Scan(s, q, 0)], q) == 0
  {
    var i := Scan(s, q, 0);
    ScanIsLeast(s, q, 0);
    ScanIsLeast(s[..i], q, 0);
    var j := Scan(s[..i], q, 0);
    if j >= 0 {
      assert s == s[..i] + s[i..];
      AtFront(s[..i], s[i..], q, j);
    }
  }

  lemma ReplaceAtFirst(s: string, q: string, r: string)
    requires q != [] && Scan(s, q, 0) >= 0
    ensures var i := Scan(s, q, 0); ReplaceAllText(s, q, r) == s[..i] + (r + ReplaceAllText(s[i + |q|..], q, r))
  {
    var i := Scan(s, q, 0);
    var rest := Split(s[i + |q|..], q);
    assert ([s[..i]] + rest)[1..] == rest;
    assert s[..i] + r + Join(rest, r) == s[..i] + (r + Join(rest, r));
  }

  lemma {:induction false} CountsOfParts(s: string, q: string, r: string, t: string)
    requires q != [] && SeamFree(q, r) && CountMatches(s, q) == 0
    ensures CountMatches(s + (r + t), q) == CountMatches(r, q) + CountMatches(t, q)
  {
    CopyIsApart(s, q, r, t);
    CountsAdd(s, r + t, q);
    ReplacementIsApart(q, r, t);
    CountsAdd(r, t, q);
  }

  lemma {:induction false} CountsAtFirst(s: string, q: string, r: string)
    requires q != [] && SeamFree(q, r) && Scan(s, q, 0) >= 0
    ensures var rest := s[Scan(s, q, 0) + |q|..];
            && CountMatches(s, q) == 1 + CountMatches(rest, q)
            && CountMatches(ReplaceAllText(s, q, r), q)
            == CountMatches(r, q) + CountMatches(ReplaceAllText(rest, q, r), q)
  {
    var i := Scan(s, q, 0);
    var w := ReplaceAllText(s[i + |q|..], q, r);
    assert ReplaceAllText(s, q, r) == s[..i] + (r + w) by { ReplaceAtFirst(s, q, r); }
    NoneBeforeFirst(s, q);
    CountsOfParts(s[..i], q, r, w);
  }

  // Where no match joins a replacement to its surroundings, the new text has one match
  // for each that every replacement brings in.
  lemma {:induction false} MatchesMultiply(s: string, q: string, r: string)
    requires q != [] && SeamFree(q, r)
    ensures CountMatches(ReplaceAllText(s, q, r), q) == Times(CountMatches(s, q), CountMatches(r, q))
    decreases |s|
  {
    if Scan(s, q, 0) >= 0 {
      CountsAtFirst(s, q, r);
      MatchesMultiply(s[Scan(s, q, 0) + |q|..], q, r);
    }
  }

  // n times d, as repeated addition.
  function Times(n: nat, d: nat): nat {
    if n == 0 then 0 else d + Times(n - 1, d)
  }

  lemma {:induction false} TimesAdds(m: nat, n: nat, d: nat)
    ensures Times(m + n, d) == Times(m, d) + Times(n, d)
  {
    if n > 0 { TimesAdds(m, n - 1, d); }
  }

  lemma {:induction false} TimesOne(n: nat, d: nat)
    ensures Times(n, d) == n <==> n == 0 || d == 1
    ensures d > 1 ==> Times(n, d) >= n
    ensures d == 0 ==> Times(n, d) == 0
  {
    if n > 0 { TimesOne(n - 1, d); }
  }

  // ---------------------------------------------------------------- ignoring case

  // GetSubstitution of ECMAScript for a pattern without groups: "$$", "$&", "$`" and "$'"
  // stand for a dollar sign, the match and the text around it.
  function Expand(r: string, before: string, matched: string, after: string): string {
    if |r| < 2 then r
    else if r[0] == '$' && r[1] == '$' then ['$'] + Expand(r[2..], before, matched, after)
    else if r[0] == '$' && r[1] == '&' then matched + Expand(r[2..], before, matched, after)
    else if r[0] == '$' && r[1] == '`' then before + Expand(r[2..], before, matched, after)
    else if r[0] == '$' && r[1] == '\'' then after + Expand(r[2..], before, matched, after)
    else [r[0]] + Expand(r[1..], before, matched, after)
  }

  predicate HasPattern(r: string) {
    |r| >= 2 && ((r[0] == '$' && r[1] in "$&`'") || HasPattern(r[1..]))
  }

  lemma {:induction false} PlainExpandsToItself(r: string, before: string, matched: string, after: string)
    requires !HasPattern(r)
    ensures Expand(r, before, matched, after) == r
  {
    if |r| >= 2 {
      assert "$&`'"[0] == '$' && "$&`'"[1] == '&' && "$&`'"[2] == '`' && "$&`'"[3] == '\'';
      PlainExpandsToItself(r[1..], before, matched, after);
      assert r == [r[0]] + r[1..];
    }
  }

  // Behind a text without dollar signs each pattern stands for its own part, and a dollar
  // sign that starts none for itself.
  lemma {:induction false} PatternStandsFor(p: string, d: char, r: string, before: string, matched: string,
                                            after: string)
    requires '$' !in p
    ensures Expand(p + (['$', d] + r), before, matched, after) ==
            p + (if d == '$' then "$" + Expand(r, before, matched, after)
                 else if d == '&' then matched + Expand(r, before, matched, after)
                 else if d == '`' then before + Expand(r, before, matched, after)
                 else if d == '\'' then after + Expand(r, before, matched, after)
                 else "$" + Expand([d] + r, before, matched, after))
  {
    var t := ['$', d] + r;
    PrefixStands(p, t, before, matched, after);
    assert t[2..] == r && t[1..] == [d] + r;
  }

  lemma {:induction false} PrefixStands(p: string, r: string, before: string, matched: string, after: string)
    requires '$' !in p && r != []
    ensures Expand(p + r, before, matched, after) == p + Expand(r, before, matched, after)
  {
    if p == [] {
      assert p + r == r;
    } else {
      assert (p + r)[1..] == p[1..] + r;
      PrefixStands(p[1..], r, before, matched, after);
    }
  }

  lemma {:induction false} ExpandShrinks(r: string)
    ensures |Expand(r, "", "", "")| <= |r|
    ensures HasPattern(r) ==> |Expand(r, "", "", "")| < |r|
  {
    if |r| >= 2 {
      if r[0] == '$' && r[1] in "$&`'" { ExpandShrinks(r[2..]); } else { ExpandShrinks(r[1..]); }
    }
  }

  // A replacement stands for itself whatever is matched exactly when it holds no pattern.
  lemma LiteralReplacementExactly(r: string)
    ensures (forall before, matched, after :: Expand(r, before, matched, after) == r) <==> !HasPattern(r)
  {
    if !HasPattern(r) {
      forall before, matched, after ensures Expand(r, before, matched, after) == r {
        PlainExpandsToItself(r, before, matched, after);
      }
    } else {
      ExpandShrinks(r);
      assert Expand(r, "", "", "") != r;
    }
  }

  // String.prototype.replace of all matches of q in f, the folded s: the pattern is tried at
  // each position and, after a match, behind it; done is what stands before s.
  function Substitute(done: string, s: string, f: string, q: string, r: string): string
    requires q != [] && |f| == |s|
    decreases |s|
  {
    if At(f, q, 0) then
      Expand(r, done, s[..|q|], s[|q|..]) + Substitute(done + s[..|q|], s[|q|..], f[|q|..], q, r)
    else if s == [] then []
    else [s[0]] + Substitute(done + [s[0]], s[1..], f[1..], q, r)
  }

  lemma {:induction false} NothingToSubstitute(done: string, s: string, f: string, q: string, r: string)
    requires q != [] && |f| == |s| && CountMatches(f, q) == 0
    ensures Substitute(done, s, f, q, r) == s
    decreases |s|
  {
    if At(f, q, 0) {
      SplitHead(f, q);
    } else if s != [] {
      SplitTail(f, q);
      NothingToSubstitute(done + [s[0]], s[1..], f[1..], q, r);
    }
  }

  lemma {:induction false} LowerBehind(lower: char -> char, s: string, n: nat)
    requires n <= |s|
    ensures Lower(lower, s[n..]) == Lower(lower, s)[n..]
  {}

  lemma {:induction false} LowerJoined(lower: char -> char, s: string, t: string)
    ensures Lower(lower, s + t) == Lower(lower, s) + Lower(lower, t)
  {}

  // Up to case, replacing while ignoring case is replacing in the folded text.
  lemma {:induction false} FoldedReplace(lower: char -> char, done: string, s: string, q: string, r: string)
    requires q != [] && !HasPattern(r)
    ensures Lower(lower, Substitute(done, s, Lower(lower, s), q, r)) == Rewrite(Lower(lower, s), q, Lower(lower, r))
    decreases |s|
  {
    var f := Lower(lower, s);
    if At(f, q, 0) {
      var rest := s[|q|..];
      LowerBehind(lower, s, |q|);
      FoldedReplace(lower, done + s[..|q|], rest, q, r);
      PlainExpandsToItself(r, done, s[..|q|], rest);
      LowerJoined(lower, r, Substitute(done + s[..|q|], rest, f[|q|..], q, r));
    } else if s != [] {
      LowerBehind(lower, s, 1);
      FoldedReplace(lower, done + [s[0]], s[1..], q, r);
      LowerJoined(lower, [s[0]], Substitute(done + [s[0]], s[1..], f[1..], q, r));
      assert Lower(lower, [s[0]]) == [f[0]];
    }
  }

  // ---------------------------------------------------------------- literal patterns

  const SPECIAL := ".*+?^${}()|[]\\"

  function EscapeRegExp(value: string): string {
    if value == [] then []
    else (if value[0] in SPECIAL then ['\\', value[0]] else [value[0]]) + EscapeRegExp(value[1..])
  }

  // The text a pattern stands for when every special character in it is escaped.
  function Literal(pattern: string): Option<string> {
    if pattern == [] then Some([])
    else if pattern[0] == '\\' then
      if |pattern| < 2 || pattern[1] !in SPECIAL then None
      else
        var rest := Literal(pattern[2..]);
        if rest.Some? then Some([pattern[1]] + rest.value) else None
    else if pattern[0] in SPECIAL then None
    else
      var rest := Literal(pattern[1..]);
      if rest.Some? then Some([pattern[0]] + rest.value) else None
  }

  // Escaping makes any text a pattern for exactly itself.
  lemma {:induction false} EscapedIsLiteral(value: string)
    ensures Literal(EscapeRegExp(value)) == Some(value)
  {
    if value != [] {
      EscapedIsLiteral(value[1..]);
      var rest := EscapeRegExp(value[1..]);
      assert value == [value[0]] + value[1..];
      if value[0] in SPECIAL {
        var pattern := ['\\', value[0]] + rest;
        assert pattern[1] == value[0] && pattern[2..] == rest;
      } else {
        assert ([value[0]] + rest)[1..] == rest;
        assert '\\' in SPECIAL by { assert SPECIAL[13] == '\\'; }
      }
    }
  }
}
