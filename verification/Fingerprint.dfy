/** The tracked-change fingerprint that guards accept and reject: a 32-bit FNV-1a
    hash over UTF-16 code units, computed in signed arithmetic. */
module Fingerprint {
  import opened Digits

  type CodeUnit = c: nat | c < 0x1_0000

  const MODULUS := 0x1_0000_0000
  type Word = x: nat | x < MODULUS

  const OFFSET: Word := 2166136261
  const PRIME: Word := 16777619
  const PRIME_INVERSE: Word := 899433627

  // ---------------------------------------------------------------- words

  function Xor(a: nat, b: nat): nat
    decreases a + b
  {
    if a == 0 && b == 0 then 0 else 2 * Xor(a / 2, b / 2) + (a + b) % 2
  }

  lemma {:induction false} XorIsBounded(a: nat, b: nat, k: nat)
    requires a < Power(2, k) && b < Power(2, k)
    ensures Xor(a, b) < Power(2, k)
  {
    if k > 0 { XorIsBounded(a / 2, b / 2, k - 1); }
  }

  lemma XorHalves(a: nat, b: nat)
    ensures Xor(a, b) / 2 == Xor(a / 2, b / 2) && Xor(a, b) % 2 == (a + b) % 2
  {}

  lemma {:induction false} XorUndoes(a: nat, b: nat)
    ensures Xor(Xor(a, b), b) == a
    decreases a + b
  {
    if a > 0 || b > 0 {
      XorUndoes(a / 2, b / 2);
      XorHalves(a, b);
      HalvesMeet(Xor(a, b), a, b);
    }
  }

  lemma {:induction false} HalvesMeet(x: nat, a: nat, b: nat)
    requires x % 2 == (a + b) % 2 && Xor(x / 2, b / 2) == a / 2
    ensures Xor(x, b) == a
  {
    XorHalves(x, b);
    SameHalves(Xor(x, b), x, a, b);
  }

  lemma SameHalves(y: nat, x: nat, a: nat, b: nat)
    requires y / 2 == a / 2 && y % 2 == (x + b) % 2 && x % 2 == (a + b) % 2
    ensures y == a
  {}

  lemma {:induction false} XorCommutes(a: nat, b: nat)
    ensures Xor(a, b) == Xor(b, a)
    decreases a + b
  {
    if a > 0 || b > 0 { XorCommutes(a / 2, b / 2); }
  }

  lemma WordPower()
    ensures Power(2, 32) == MODULUS
  {
    assert Power(2, 8) == 0x100;
    assert Power(2, 16) == 0x1_0000;
    assert Power(2, 24) == 0x100_0000;
  }

  function XorWord(a: Word, b: Word): Word {
    WordPower();
    XorIsBounded(a, b, 32);
    Xor(a, b)
  }

  function MulWord(a: Word, b: Word): Word {
    (a * b) % MODULUS
  }

  // ToInt32 and ToUint32 of ECMAScript, on integers.
  function ToUint32(x: int): Word {
    x % MODULUS
  }

  function ToInt32(x: int): int {
    var u := x % MODULUS;
    if u >= 0x8000_0000 then u - MODULUS else u
  }

  lemma SignedRoundTrip(x: int)
    ensures ToUint32(ToInt32(x)) == ToUint32(x)
    ensures -0x8000_0000 <= ToInt32(x) < 0x8000_0000
  {}

  function Imul(a: int, b: int): int {
    ToInt32(ToUint32(a) * ToUint32(b))
  }

  function SignedXor(a: int, b: int): int {
    ToInt32(XorWord(ToUint32(a), ToUint32(b)))
  }

  // ---------------------------------------------------------------- unsigned FNV-1a

  function Step(h: Word, c: CodeUnit): Word {
    MulWord(XorWord(h, c), PRIME)
  }

  function Unstep(h: Word, c: CodeUnit): Word {
    XorWord(MulWord(h, PRIME_INVERSE), c)
  }

  lemma {:induction false} PrimeIsInvertible(x: Word)
    ensures MulWord(MulWord(x, PRIME), PRIME_INVERSE) == x
    ensures MulWord(MulWord(x, PRIME_INVERSE), PRIME) == x
  {
    var d, e := (x * PRIME) / MODULUS, (x * PRIME_INVERSE) / MODULUS;
    Remainder(MulWord(x, PRIME) * PRIME_INVERSE, x * 3513497 - d * PRIME_INVERSE, x);
    Remainder(MulWord(x, PRIME_INVERSE) * PRIME, x * 3513497 - e * PRIME, x);
  }

  lemma Remainder(a: int, q: int, r: Word)
    requires a == q * MODULUS + r
    ensures a % MODULUS == r
  {}

  // With the code unit fixed, a step is a bijection on the hash state.
  lemma {:induction false} StepIsBijective(h: Word, c: CodeUnit)
    ensures Unstep(Step(h, c), c) == h
    ensures Step(Unstep(h, c), c) == h
  {
    PrimeIsInvertible(XorWord(h, c));
    XorUndoes(h, c);
    XorUndoes(MulWord(h, PRIME_INVERSE), c);
    PrimeIsInvertible(h);
  }

  // With the hash state fixed, a step tells any two code units apart.
  lemma StepSeparates(h: Word, a: CodeUnit, b: CodeUnit)
    requires Step(h, a) == Step(h, b)
    ensures a == b
  {
    PrimeIsInvertible(XorWord(h, a));
    PrimeIsInvertible(XorWord(h, b));
    XorCommutes(h, a);
    XorCommutes(h, b);
    XorUndoes(a, h);
    XorUndoes(b, h);
  }

  function Fnv(h: Word, s: seq<CodeUnit>): Word {
    if s == [] then h else Step(Fnv(h, s[..|s| - 1]), s[|s| - 1])
  }

  lemma {:induction false} FnvConcat(h: Word, s: seq<CodeUnit>, t: seq<CodeUnit>)
    ensures Fnv(h, s + t) == Fnv(Fnv(h, s), t)
  {
    if t == [] {
      assert s + t == s;
    } else {
      var u := t[..|t| - 1];
      FnvConcat(h, s, u);
      assert (s + t)[..|s + t| - 1] == s + u;
    }
  }

  // A common suffix neither makes nor hides a collision.
  lemma {:induction false} SuffixIsBijective(g: Word, h: Word, s: seq<CodeUnit>)
    ensures Fnv(g, s) == Fnv(h, s) <==> g == h
  {
    if s != [] {
      var u, c := s[..|s| - 1], s[|s| - 1];
      SuffixIsBijective(g, h, u);
      StepIsBijective(Fnv(g, u), c);
      StepIsBijective(Fnv(h, u), c);
    }
  }

  // An edit in the middle goes unnoticed exactly when the edited parts already
  // collide from the state the common prefix leaves.
  lemma {:induction false} EditIsMissedExactly(before: seq<CodeUnit>, x: seq<CodeUnit>, y: seq<CodeUnit>,
                                               after: seq<CodeUnit>)
    ensures Fnv(OFFSET, before + x + after) == Fnv(OFFSET, before + y + after)
       <==> Fnv(Fnv(OFFSET, before), x) == Fnv(Fnv(OFFSET, before), y)
  {
    FnvConcat(OFFSET, before + x, after);
    FnvConcat(OFFSET, before + y, after);
    FnvConcat(OFFSET, before, x);
    FnvConcat(OFFSET, before, y);
    SuffixIsBijective(Fnv(OFFSET, before + x), Fnv(OFFSET, before + y), after);
  }

  lemma OneUnit(h: Word, c: CodeUnit)
    ensures Fnv(h, [c]) == Step(h, c)
  {
    assert [c][..0] == [];
  }

  // Replacing one code unit always changes the hash; inserting one goes unnoticed
  // exactly when it leaves the prefix's hash where it was.
  lemma {:induction false} SubstitutionIsSeen(before: seq<CodeUnit>, a: CodeUnit, b: CodeUnit, after: seq<CodeUnit>)
    ensures Fnv(OFFSET, before + [a] + after) == Fnv(OFFSET, before + [b] + after) <==> a == b
  {
    var h := Fnv(OFFSET, before);
    EditIsMissedExactly(before, [a], [b], after);
    OneUnit(h, a);
    OneUnit(h, b);
    if Step(h, a) == Step(h, b) { StepSeparates(h, a, b); }
  }

  lemma {:induction false} InsertionIsMissedExactly(before: seq<CodeUnit>, c: CodeUnit, after: seq<CodeUnit>)
    ensures Fnv(OFFSET, before + [c] + after) == Fnv(OFFSET, before + after)
       <==> Step(Fnv(OFFSET, before), c) == Fnv(OFFSET, before)
  {
    EditIsMissedExactly(before, [c], [], after);
    OneUnit(Fnv(OFFSET, before), c);
    assert before + [] == before;
  }

  // ---------------------------------------------------------------- the hash as text

  function Hex8(h: Word): string {
    PadStart(Print(h, 16), 8)
  }

  lemma Hex8IsInjective(g: Word, h: Word)
    ensures |Hex8(h)| == 8
    ensures Hex8(g) == Hex8(h) <==> g == h
  {
    assert Power(16, 8) == MODULUS;
    PrintLength(h, 16, 8);
    PaddedRoundTrip(Print(g, 16), 8, 16);
    PaddedRoundTrip(Print(h, 16), 8, 16);
    PrintRoundTrip(g, 16);
    PrintRoundTrip(h, 16);
  }

  // The text is the hash in base sixteen.
  lemma Hex8ReadsBack(h: Word)
    ensures Parse(Hex8(h), 16) == h
    ensures forall k :: 0 <= k < |Hex8(h)| ==> Hex8(h)[k] in "0123456789abcdef"
  {
    PrintRoundTrip(h, 16);
    PaddedRoundTrip(Print(h, 16), 8, 16);
    PrintIsDigits(h, 16);
    PaddedIsDigits(Print(h, 16), 8);
  }

  lemma {:induction false} XorBits(a: nat, b: nat, i: nat, j: nat, k: nat, l: nat)
    requires i < 2 && j < 2 && k < 2 && l < 2
    ensures Xor(4 * a + 2 * i + k, 4 * b + 2 * j + l) == 4 * Xor(a, b) + 2 * ((i + j) % 2) + (k + l) % 2
  {
    XorBit(a, b, i, j);
    XorBit(2 * a + i, 2 * b + j, k, l);
  }

  lemma {:induction false} XorBit(a: nat, b: nat, i: nat, j: nat)
    requires i < 2 && j < 2
    ensures Xor(2 * a + i, 2 * b + j) == 2 * Xor(a, b) + (i + j) % 2
  {}

  lemma {:induction false} XorZero(a: nat)
    ensures Xor(a, 0) == a
  {
    if a > 0 { XorZero(a / 2); }
  }

  lemma {:induction false} XorTwelve(q: nat)
    ensures Xor(16 * q + 12, 6) == 16 * q + 10
  {
    XorZero(q);
    XorBits(q, 0, 1, 0, 1, 1);
    XorBits(4 * q + 3, 1, 0, 1, 0, 0);
  }

  lemma {:induction false} XorFive(p: nat, r: nat)
    ensures Xor(16 * p + 5, 16 * r + 1) == 16 * Xor(p, r) + 4
  {
    XorBits(p, r, 0, 0, 1, 0);
    XorBits(4 * p + 1, 4 * r, 0, 0, 1, 1);
  }

  lemma {:induction false} LetterIsHashed(h: Word, c: CodeUnit, q: nat, x: Word)
    requires h == 256 * q + 197 && c == 97 && x == 256 * q + 164
    ensures Fnv(h, [c]) == MulWord(x, PRIME)
  {
    OneUnit(h, c);
    XorTwelve(q);
    XorFive(16 * q + 12, 6);
  }

  lemma {:induction false} LetterAsText(h: Word, c: CodeUnit)
    requires h == 0x811c9dc5 && c == 'a' as int
    ensures Hex8(Fnv(h, [c])) == "e40c292c"
  {
    var q := 0x811c9d;
    var x: Word := 0x811c9da4;
    assert h == 256 * q + 197 && x == 256 * q + 164;
    LetterIsHashed(h, c, q, x);
    ProductAsText(Fnv(h, [c]), x);
  }

  lemma ProductAsText(w: Word, x: Word)
    requires x == 0x811c9da4 && w == MulWord(x, PRIME)
    ensures Hex8(w) == "e40c292c"
  {
    Remainder(x * PRIME, 8461672, 0xe40c292c);
    assert Hex8(0xe40c292c) == "e40c292c";
  }

  // The hashes FNV-1a is published with for the empty text and for "a".
  lemma {:induction false} KnownHashes(c: CodeUnit)
    requires c == 'a' as int
    ensures Hex8(Fnv(OFFSET, [])) == "811c9dc5"
    ensures Hex8(Fnv(OFFSET, [c])) == "e40c292c"
  {
    LetterAsText(OFFSET, c);
  }

  lemma SignedXorStep(hash: int, c: CodeUnit)
    ensures ToUint32(SignedXor(hash, c)) == XorWord(ToUint32(hash), c)
  {
    SignedRoundTrip(XorWord(ToUint32(hash), c));
  }

  lemma SignedStep(hash: int, c: CodeUnit, mixed: int, h: Word)
    requires h == ToUint32(hash) && mixed == SignedXor(hash, c)
    ensures ToUint32(Imul(mixed, PRIME)) == Step(h, c)
  {
    SignedXorStep(hash, c);
    SignedRoundTrip(ToUint32(mixed) * PRIME);
  }

  method StableHash(input: seq<CodeUnit>) returns (r: string)
    ensures r == Hex8(Fnv(OFFSET, input))
  {
    var hash: int := OFFSET;
    for i := 0 to |input|
      invariant ToUint32(hash) == Fnv(OFFSET, input[..i])
    {
      assert input[..i + 1][..i] == input[..i];
      SignedStep(hash, input[i], SignedXor(hash, input[i]), ToUint32(hash));
      hash := SignedXor(hash, input[i]);
      hash := Imul(hash, PRIME);
    }
    assert input[..|input|] == input;
    r := PadStart(Print(ToUint32(hash), 16), 8);
  }

  // ---------------------------------------------------------------- tracked changes

  // A date stands as the text the fingerprint uses for it; missing fields are empty.
  datatype Change = Change(author: seq<CodeUnit>, date: seq<CodeUnit>, kind: seq<CodeUnit>, text: seq<CodeUnit>)

  datatype Field = Author | Date | Kind | Text

  const SEPARATOR: CodeUnit := 0x1F

  function IndexUnits(index: nat): seq<CodeUnit> {
    var s := Print(index, 10);
    PrintIsDigits(index, 10);
    seq(|s|, k requires 0 <= k < |s| => DigitUnit(s[k]))
  }

  function DigitUnit(c: char): CodeUnit
    requires c in HEX
  {
    c as int
  }

  function Joined(index: nat, change: Change): seq<CodeUnit> {
    IndexUnits(index) + ([SEPARATOR] + (change.author + ([SEPARATOR] + (change.date + ([SEPARATOR] + (change.kind
      + ([SEPARATOR] + change.text)))))))
  }

  function FingerprintOf(index: nat, change: Change): string {
    Hex8(Fnv(OFFSET, Joined(index, change)))
  }

  lemma JoinedFlat(units: seq<CodeUnit>, index: nat, change: Change)
    requires units == IndexUnits(index)
    ensures Joined(index, change) ==
            units + [0x1F] + change.author + [0x1F] + change.date + [0x1F] + change.kind + [0x1F] + change.text
  {}

  // The decimal index, author, date, type and text, with U+001F between them.
  lemma {:induction false} JoinedInOrder(index: nat, change: Change) returns (digits: string)
    ensures Joined(index, change) == UnitsOf(digits) + [0x1F] + change.author + [0x1F] + change.date + [0x1F]
                                     + change.kind + [0x1F] + change.text
    ensures Parse(digits, 10) == index && digits != [] && forall k :: 0 <= k < |digits| ==> '0' <= digits[k] <= '9'
  {
    digits := Print(index, 10);
    PrintRoundTrip(index, 10);
    PrintIsDecimal(index);
    PrintIsDigits(index, 10);
    assert UnitsOf(digits) == IndexUnits(index);
    JoinedFlat(UnitsOf(digits), index, change);
  }

  function UnitsOf(s: string): seq<CodeUnit> {
    seq(|s|, k requires 0 <= k < |s| => if s[k] as int < 0x1_0000 then s[k] as int else 0xFFFD)
  }

  method TrackedChangeFingerprint(index: nat, change: Change) returns (r: string)
    ensures r == FingerprintOf(index, change)
  {
    r := StableHash(Joined(index, change));
  }

  function Get(change: Change, f: Field): seq<CodeUnit> {
    match f
    case Author => change.author
    case Date => change.date
    case Kind => change.kind
    case Text => change.text
  }

  function With(change: Change, f: Field, v: seq<CodeUnit>): Change {
    match f
    case Author => change.(author := v)
    case Date => change.(date := v)
    case Kind => change.(kind := v)
    case Text => change.(text := v)
  }

  // The joined text around one field.
  function Before(index: nat, change: Change, f: Field): seq<CodeUnit> {
    var author := IndexUnits(index) + [SEPARATOR];
    var date := author + change.author + [SEPARATOR];
    var kind := date + change.date + [SEPARATOR];
    match f
    case Author => author
    case Date => date
    case Kind => kind
    case Text => kind + change.kind + [SEPARATOR]
  }

  function After(change: Change, f: Field): seq<CodeUnit> {
    var kind := [SEPARATOR] + change.text;
    var date := [SEPARATOR] + (change.kind + kind);
    match f
    case Author => [SEPARATOR] + (change.date + date)
    case Date => date
    case Kind => kind
    case Text => []
  }

  lemma Shift(p: seq<CodeUnit>, v: seq<CodeUnit>, rest: seq<CodeUnit>)
    ensures p + (v + ([SEPARATOR] + rest)) == (p + v + [SEPARATOR]) + rest
  {}

  lemma JoinedAt(index: nat, change: Change, f: Field)
    ensures Joined(index, change) == Before(index, change, f) + (Get(change, f) + After(change, f))
  {
    var kind := change.kind + ([SEPARATOR] + change.text);
    var date := change.date + ([SEPARATOR] + kind);
    Shift([], IndexUnits(index), change.author + ([SEPARATOR] + date));
    Shift(Before(index, change, Author), change.author, date);
    Shift(Before(index, change, Date), change.date, kind);
    Shift(Before(index, change, Kind), change.kind, change.text);
    assert change.text + [] == change.text;
    assert [] + (IndexUnits(index) + ([SEPARATOR] + (change.author + ([SEPARATOR] + date)))) == Joined(index, change);
  }

  lemma JoinedAround(index: nat, change: Change, f: Field, v: seq<CodeUnit>)
    ensures Joined(index, With(change, f, v)) == Before(index, change, f) + v + After(change, f)
  {
    var edited := With(change, f, v);
    JoinedAt(index, edited, f);
    assert Before(index, edited, f) == Before(index, change, f) && After(edited, f) == After(change, f);
    Associate(Before(index, change, f), v, After(change, f));
  }

  lemma Associate(a: seq<CodeUnit>, b: seq<CodeUnit>, c: seq<CodeUnit>)
    ensures a + (b + c) == a + b + c
  {}

  lemma Regroup(a: seq<CodeUnit>, b: seq<CodeUnit>, c: seq<CodeUnit>, d: seq<CodeUnit>, e: seq<CodeUnit>)
    ensures a + (b + c + d) + e == (a + b) + c + (d + e)
  {}

  // Any edit to one field, and when the fingerprint misses it.
  lemma {:induction false} FieldEditIsMissedExactly(index: nat, change: Change, f: Field, v: seq<CodeUnit>,
                                                    w: seq<CodeUnit>)
    ensures FingerprintOf(index, With(change, f, v)) == FingerprintOf(index, With(change, f, w))
       <==> var h := Fnv(OFFSET, Before(index, change, f)); Fnv(h, v) == Fnv(h, w)
  {
    JoinedAround(index, change, f, v);
    JoinedAround(index, change, f, w);
    EditIsMissedExactly(Before(index, change, f), v, w, After(change, f));
    Hex8IsInjective(Fnv(OFFSET, Joined(index, With(change, f, v))), Fnv(OFFSET, Joined(index, With(change, f, w))));
  }

  lemma {:induction false} FieldSubstitutionIsSeen(index: nat, change: Change, f: Field, pre: seq<CodeUnit>,
                                                   a: CodeUnit, b: CodeUnit, post: seq<CodeUnit>)
    requires a != b
    ensures FingerprintOf(index, With(change, f, pre + [a] + post))
         != FingerprintOf(index, With(change, f, pre + [b] + post))
  {
    var before, after := Before(index, change, f), After(change, f);
    JoinedAround(index, change, f, pre + [a] + post);
    JoinedAround(index, change, f, pre + [b] + post);
    Regroup(before, pre, [a], post, after);
    Regroup(before, pre, [b], post, after);
    SubstitutionIsSeen(before + pre, a, b, post + after);
    Hex8IsInjective(Fnv(OFFSET, (before + pre) + [a] + (post + after)),
                    Fnv(OFFSET, (before + pre) + [b] + (post + after)));
  }

  // ---------------------------------------------------------------- what the hash sees

  lemma FirstSeparator(p: seq<CodeUnit>, r: seq<CodeUnit>, q: seq<CodeUnit>, t: seq<CodeUnit>)
    requires SEPARATOR !in p && SEPARATOR !in q
    requires p + ([SEPARATOR] + r) == q + ([SEPARATOR] + t)
    ensures p == q && r == t
  {
    var whole := p + ([SEPARATOR] + r);
    assert whole[|p|] == SEPARATOR && whole[|q|] == SEPARATOR;
    assert forall k :: 0 <= k < |p| ==> whole[k] == p[k];
    assert forall k :: 0 <= k < |q| ==> whole[k] == q[k];
    assert p == whole[..|p|] && q == whole[..|q|];
    assert r == whole[|p| + 1..] && t == whole[|q| + 1..];
  }

  predicate Unseparated(change: Change) {
    SEPARATOR !in change.author && SEPARATOR !in change.date && SEPARATOR !in change.kind
  }

  lemma IndexUnitsAreInjective(i: nat, j: nat)
    ensures SEPARATOR !in IndexUnits(i)
    ensures IndexUnits(i) == IndexUnits(j) <==> i == j
  {
    PrintIsDigits(i, 10);
    PrintIsDigits(j, 10);
    var s, t := Print(i, 10), Print(j, 10);
    if IndexUnits(i) == IndexUnits(j) {
      forall k | 0 <= k < |s| ensures |s| == |t| && s[k] == t[k] {
        assert IndexUnits(i)[k] == IndexUnits(j)[k];
      }
      assert |IndexUnits(i)| == |s| && |IndexUnits(j)| == |t|;
      assert s == t;
      PrintIsInjective(i, j, 10);
    }
  }

  // When author, date and type are free of the separator, the hashed text
  // determines the change and its index.
  lemma JoinedIsInjective(i: nat, c: Change, j: nat, d: Change)
    requires Unseparated(c) && Unseparated(d)
    ensures Joined(i, c) == Joined(j, d) <==> i == j && c == d
  {
    if Joined(i, c) == Joined(j, d) {
      IndexUnitsAreInjective(i, j);
      IndexUnitsAreInjective(j, i);
      var x, y := [SEPARATOR] + c.text, [SEPARATOR] + d.text;
      FirstSeparator(IndexUnits(i), c.author + ([SEPARATOR] + (c.date + ([SEPARATOR] + (c.kind + x)))),
                     IndexUnits(j), d.author + ([SEPARATOR] + (d.date + ([SEPARATOR] + (d.kind + y)))));
      FirstSeparator(c.author, c.date + ([SEPARATOR] + (c.kind + x)), d.author, d.date + ([SEPARATOR] + (d.kind + y)));
      FirstSeparator(c.date, c.kind + x, d.date, d.kind + y);
      FirstSeparator(c.kind, c.text, d.kind, d.text);
    }
  }

  // Without that, two different changes at one index can share a fingerprint.
  lemma {:induction false} SeparatorHidesADifference(index: nat, author: seq<CodeUnit>, rest: Change)
    ensures var c, d := rest.(author := author + [SEPARATOR], date := []), rest.(author := author, date := [SEPARATOR]);
            c != d && FingerprintOf(index, c) == FingerprintOf(index, d)
  {
    var tail := [SEPARATOR] + (rest.kind + ([SEPARATOR] + rest.text));
    assert |author + [SEPARATOR]| != |author|;
    assert (author + [SEPARATOR]) + ([SEPARATOR] + ([] + tail)) == author + ([SEPARATOR] + ([SEPARATOR] + tail));
  }

  // ---------------------------------------------------------------- word.update_tracked_change

  datatype Action = Accept | Reject

  datatype State = Pending | Accepted | Rejected

  datatype Outcome = IndexOutOfRange | StaleIndex | Mutated(index: nat, fingerprint: string, action: Action)

  class TrackedChange {
    var content: Change
    var state: State

    constructor (content: Change)
      ensures this.content == content && state == Pending
    {
      this.content, state := content, Pending;
    }
  }

  ghost function ContentsOf(changes: seq<TrackedChange>): (r: seq<Change>)
    reads changes
    ensures |r| == |changes| && forall i :: 0 <= i < |changes| ==> r[i] == changes[i].content
  {
    seq(|changes|, i requires 0 <= i < |changes| reads changes => changes[i].content)
  }

  function Decide(contents: seq<Change>, index: nat, expected: string, action: Action): Outcome {
    if index >= |contents| then IndexOutOfRange
    else if FingerprintOf(index, contents[index]) != expected then StaleIndex
    else Mutated(index, expected, action)
  }

  method MutateTrackedChange(changes: seq<TrackedChange>, index: nat, expected: string, action: Action)
    returns (r: Outcome)
    modifies changes
    ensures r == Decide(old(ContentsOf(changes)), index, expected, action)
    ensures ContentsOf(changes) == old(ContentsOf(changes))
    ensures forall c :: c in changes ==>
              c.state == if r.Mutated? && c == changes[index] then if action == Accept then Accepted else Rejected
                         else old(c.state)
  {
    if index >= |changes| { return IndexOutOfRange; }
    var change := changes[index];
    var fingerprint := TrackedChangeFingerprint(index, change.content);
    if fingerprint != expected { return StaleIndex; }
    if action == Accept {
      change.state := Accepted;
    } else {
      change.state := Rejected;
    }
    r := Mutated(index, fingerprint, action);
  }

  function Reported(contents: seq<Change>): (r: seq<string>)
    ensures |r| == |contents| && forall i :: 0 <= i < |contents| ==> r[i] == FingerprintOf(i, contents[i])
  {
    seq(|contents|, i requires 0 <= i < |contents| => FingerprintOf(i, contents[i]))
  }

  // A caller who passes back the fingerprint it read is let through exactly when the
  // change now at that index has the same hash, as it always has when unchanged.
  lemma {:induction false} ReportedAdmitsExactly(contents: seq<Change>, now: seq<Change>, index: nat, action: Action)
    requires index < |contents|
    ensures var r := Decide(now, index, Reported(contents)[index], action);
            && (r.Mutated? <==>
                  index < |now|
                  && Fnv(OFFSET, Joined(index, now[index])) == Fnv(OFFSET, Joined(index, contents[index])))
            && (index < |now| && now[index] == contents[index]
                ==> r == Mutated(index, FingerprintOf(index, now[index]), action))
            && (r.IndexOutOfRange? <==> index >= |now|)
  {
    if index < |now| {
      Hex8IsInjective(Fnv(OFFSET, Joined(index, now[index])), Fnv(OFFSET, Joined(index, contents[index])));
    }
  }

  lemma {:induction false} OneUnitEditIsRefused(contents: seq<Change>, now: seq<Change>, index: nat, f: Field, k: nat,
                                                u: CodeUnit, action: Action)
    requires index < |contents| && index < |now|
    requires var v := Get(contents[index], f);
             k < |v| && v[k] != u && now[index] == With(contents[index], f, v[k := u])
    ensures Decide(now, index, Reported(contents)[index], action) == StaleIndex
  {
    var change := contents[index];
    var v := Get(change, f);
    assert v[..k] + [v[k]] + v[k + 1..] == v;
    assert v[..k] + [u] + v[k + 1..] == v[k := u];
    assert With(change, f, v) == change;
    FieldSubstitutionIsSeen(index, change, f, v[..k], v[k], u, v[k + 1..]);
  }
}
