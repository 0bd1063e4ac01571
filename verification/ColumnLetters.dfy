/** Spreadsheet column letters as bijective base 26, and the frozen-pane address that
    carries them. */
module ColumnLetters {
  import opened Wrappers
  import Digits

  predicate IsUpper(c: char) {
    'A' <= c <= 'Z'
  }

  predicate IsLetter(c: char) {
    IsUpper(c) || 'a' <= c <= 'z'
  }

  function Upper(c: char): char {
    if 'a' <= c <= 'z' then (c as int - 32) as char else c
  }

  predicate AllUpper(s: string) {
    forall k :: 0 <= k < |s| ==> IsUpper(s[k])
  }

  predicate AllLetters(s: string) {
    forall k :: 0 <= k < |s| ==> IsLetter(s[k])
  }

  function Uppercase(s: string): (r: string)
    ensures |r| == |s| && forall k :: 0 <= k < |s| ==> r[k] == Upper(s[k])
  {
    seq(|s|, k requires 0 <= k < |s| => Upper(s[k]))
  }

  function Rank(c: char): int {
    c as int - 64
  }

  function Value(s: string): int {
    if s == [] then 0 else Value(s[..|s| - 1]) * 26 + Rank(s[|s| - 1])
  }

  // The zero-based column the letters name.
  function Column(s: string): int {
    if Value(s) > 0 then Value(s) - 1 else 0
  }

  method ColumnIndexFromLetters(letters: string) returns (index: int)
    requires AllLetters(letters)
    ensures index == Column(Uppercase(letters))
  {
    var value, upper := 0, Uppercase(letters);
    for i := 0 to |upper|
      invariant value == Value(upper[..i])
    {
      assert upper[..i + 1][..i] == upper[..i];
      value := value * 26 + (upper[i] as int - 64);
    }
    assert upper[..|upper|] == upper;
    index := if value > 1 then value - 1 else 0;
  }

  // ---------------------------------------------------------------- the inverse

  function Letter(d: nat): char
    requires d < 26
  {
    (d + 65) as char
  }

  function Letters(n: nat): string {
    if n < 26 then [Letter(n)] else Letters(n / 26 - 1) + [Letter(n % 26)]
  }

  lemma ValueSnoc(s: string, c: char)
    ensures Value(s + [c]) == Value(s) * 26 + Rank(c)
  {
    assert (s + [c])[..|s|] == s;
  }

  lemma {:induction false} ValueOfLetters(n: nat)
    ensures Letters(n) != [] && AllUpper(Letters(n))
    ensures Value(Letters(n)) == n + 1
  {
    if n < 26 {
      ValueSnoc([], Letter(n));
    } else {
      ValueOfLetters(n / 26 - 1);
      ValueSnoc(Letters(n / 26 - 1), Letter(n % 26));
    }
  }

  lemma {:induction false} ValueIsPositive(s: string)
    requires AllUpper(s)
    ensures if s == [] then Value(s) == 0 else Value(s) > 0
  {
    if s != [] { ValueIsPositive(s[..|s| - 1]); }
  }

  // Every column has letters, and reading them back gives the column.
  lemma ColumnOfLetters(n: nat)
    ensures Letters(n) != [] && AllUpper(Letters(n)) && Column(Letters(n)) == n
  {
    ValueOfLetters(n);
  }

  // Non-empty uppercase letters are the letters of exactly one column.
  lemma {:induction false} LettersOfColumn(s: string)
    requires s != [] && AllUpper(s)
    ensures Letters(Column(s)) == s
  {
    var front, last := s[..|s| - 1], s[|s| - 1];
    ValueIsPositive(s);
    ValueIsPositive(front);
    if front != [] { LettersOfColumn(front); }
    assert s == front + [last];
  }

  lemma ColumnsAreDistinct(s: string, t: string)
    requires s != [] && AllUpper(s) && t != [] && AllUpper(t)
    ensures Column(s) == Column(t) <==> s == t
  {
    LettersOfColumn(s);
    LettersOfColumn(t);
  }

  // ---------------------------------------------------------------- order

  ghost predicate Before(s: string, t: string) {
    exists k :: DiffersAt(s, t, k)
  }

  predicate DiffersAt(s: string, t: string, k: int) {
    0 <= k < |s| && k < |t| && s[..k] == t[..k] && s[k] < t[k]
  }

  // Shorter first, then alphabetically.
  ghost predicate Shortlex(s: string, t: string) {
    |s| < |t| || (|s| == |t| && Before(s, t))
  }

  lemma BeforeSnoc(u: string, v: string, a: char, b: char)
    requires |u| == |v|
    ensures Before(u + [a], v + [b]) <==> Before(u, v) || (u == v && a < b)
  {
    var s, t := u + [a], v + [b];
    if k :| DiffersAt(s, t, k) {
      if k < |u| {
        assert u[..k] == s[..k] && v[..k] == t[..k];
        assert DiffersAt(u, v, k);
      } else {
        assert u == s[..k] && v == t[..k];
      }
    }
    if k :| DiffersAt(u, v, k) {
      assert u[..k] == s[..k] && v[..k] == t[..k];
      assert DiffersAt(s, t, k);
    }
    if u == v && a < b {
      assert s[..|u|] == u && t[..|u|] == v;
      assert DiffersAt(s, t, |u|);
    }
  }

  lemma {:induction false} ValueOrdersEqualLengths(s: string, t: string)
    requires AllUpper(s) && AllUpper(t) && |s| == |t|
    ensures Value(s) < Value(t) <==> Before(s, t)
    ensures Value(s) == Value(t) <==> s == t
  {
    if s != [] {
      var u, v, a, b := s[..|s| - 1], t[..|t| - 1], s[|s| - 1], t[|t| - 1];
      assert s == u + [a] && t == v + [b];
      ValueOrdersEqualLengths(u, v);
      BeforeSnoc(u, v, a, b);
    }
  }

  lemma {:induction false} ShorterIsLess(s: string, t: string)
    requires AllUpper(s) && AllUpper(t) && |s| < |t|
    ensures Value(s) < Value(t)
  {
    ValueIsPositive(t);
    if s != [] { ShorterIsLess(s[..|s| - 1], t[..|t| - 1]); }
  }

  // Columns run in the order of their letters.
  lemma ColumnsFollowShortlex(s: string, t: string)
    requires s != [] && AllUpper(s) && t != [] && AllUpper(t)
    ensures Column(s) < Column(t) <==> Shortlex(s, t)
  {
    ValueIsPositive(s);
    ValueIsPositive(t);
    if |s| == |t| { ValueOrdersEqualLengths(s, t); }
    if |s| < |t| { ShorterIsLess(s, t); }
    if |t| < |s| { ShorterIsLess(t, s); }
  }

  // ---------------------------------------------------------------- frozen panes

  datatype Frozen = Cell(rows: nat, columns: nat, at: string) | Unparsed(address: Option<string>)

  // The part after the last '!'.
  function AfterSheet(address: string): string {
    if '!' !in address then address
    else if address[|address| - 1] == '!' then []
    else AfterSheet(address[..|address| - 1]) + [address[|address| - 1]]
  }

  function UpToColon(s: string): string {
    if s == [] || s[0] == ':' then [] else [s[0]] + UpToColon(s[1..])
  }

  // Quotes and dollar signs removed.
  function Bare(s: string): string {
    if s == [] then [] else (if s[0] == '\'' || s[0] == '$' then [] else [s[0]]) + Bare(s[1..])
  }

  predicate IsDecimal(c: char) {
    '0' <= c <= '9'
  }

  // How many letters s starts with.
  function LeadingLetters(s: string): (n: nat)
    ensures n <= |s| && AllLetters(s[..n]) && (n < |s| ==> !IsLetter(s[n]))
  {
    if s == [] || !IsLetter(s[0]) then 0 else 1 + LeadingLetters(s[1..])
  }

  predicate IsCell(s: string) {
    var n := LeadingLetters(s);
    0 < n < |s| && forall k :: n <= k < |s| ==> IsDecimal(s[k])
  }

  method SheetFrozenState(address: Option<string>) returns (r: Option<Frozen>)
    ensures r == if address.None? then None else Some(FrozenAt(address.value))
  {
    if address.None? { return None; }
    var local := if '!' in address.value then AfterSheet(address.value) else address.value;
    var start := Bare(UpToColon(local));
    if !IsCell(start) { return Some(Unparsed(if local == "" then None else Some(local))); }
    var n := LeadingLetters(start);
    var columns := ColumnIndexFromLetters(start[..n]);
    ColumnIsNatural(start[..n]);
    var row := Digits.Parse(start[n..], 10);
    return Some(Cell(if row > 1 then row - 1 else 0, columns, Uppercase(start)));
  }

  lemma ColumnIsNatural(s: string)
    requires AllLetters(s)
    ensures Column(Uppercase(s)) >= 0
  {}

  function FrozenAt(address: string): Frozen {
    var local := AfterSheet(address);
    var start := Bare(UpToColon(local));
    if !IsCell(start) then Unparsed(if local == [] then None else Some(local))
    else
      CellOf(start[..LeadingLetters(start)], start[LeadingLetters(start)..], start)
  }

  function CellOf(letters: string, digits: string, start: string): Frozen
    requires AllLetters(letters)
  {
    ColumnIsNatural(letters);
    var row := Digits.Parse(digits, 10);
    Cell(if row > 0 then row - 1 else 0, Column(Uppercase(letters)), Uppercase(start))
  }

  // ---------------------------------------------------------------- reading an address back

  // The address of a freeze range whose first cell is column n, row r (both from 0).
  function Address(sheet: string, n: nat, r: nat, tail: string): string {
    sheet + "!" + ("$" + Letters(n) + "$" + Digits.Print(r + 1, 10) + tail)
  }

  lemma {:induction false} AfterSheetOf(sheet: string, local: string)
    requires '!' !in local
    ensures AfterSheet(sheet + "!" + local) == local
  {
    var address := sheet + "!" + local;
    assert address[|sheet|] == '!';
    if local != [] {
      var front := local[..|local| - 1];
      assert address[..|address| - 1] == sheet + "!" + front;
      assert address[|address| - 1] == local[|local| - 1];
      AfterSheetOf(sheet, front);
    }
  }

  lemma {:induction false} UpToColonOf(cell: string, tail: string)
    requires ':' !in cell && (tail == [] || tail[0] == ':')
    ensures UpToColon(cell + tail) == cell
  {
    if cell == [] {
      assert cell + tail == tail;
    } else {
      assert (cell + tail)[1..] == cell[1..] + tail;
      UpToColonOf(cell[1..], tail);
    }
  }

  lemma {:induction false} BareAppend(s: string, t: string)
    ensures Bare(s + t) == Bare(s) + Bare(t)
  {
    if s == [] {
      assert s + t == t;
    } else {
      assert (s + t)[1..] == s[1..] + t;
      BareAppend(s[1..], t);
    }
  }

  lemma {:induction false} BareKeeps(s: string)
    requires '\'' !in s && '$' !in s
    ensures Bare(s) == s
  {
    if s != [] { BareKeeps(s[1..]); }
  }

  lemma {:induction false} BareCell(letters: string, digits: string)
    requires AllUpper(letters) && forall k :: 0 <= k < |digits| ==> IsDecimal(digits[k])
    ensures Bare("$" + letters + "$" + digits) == letters + digits
  {
    BareKeeps(letters);
    BareKeeps(digits);
    BareDollar(letters);
    BareAppend("$" + letters + "$", digits);
  }

  lemma BareDollar(s: string)
    ensures Bare("$" + s + "$") == Bare(s)
  {
    BareAppend("$" + s, "$");
    BareAppend("$", s);
    assert "$"[1..] == [] && Bare("$") == [];
  }

  lemma CellHasNoMarks(letters: string, digits: string)
    requires AllUpper(letters) && forall k :: 0 <= k < |digits| ==> IsDecimal(digits[k])
    ensures '!' !in "$" + letters + "$" + digits && ':' !in "$" + letters + "$" + digits
  {}

  lemma {:induction false} LettersComeFirst(letters: string, digits: string)
    requires AllLetters(letters) && digits != [] && IsDecimal(digits[0])
    ensures LeadingLetters(letters + digits) == |letters|
  {
    if letters == [] {
      assert letters + digits == digits;
    } else {
      assert (letters + digits)[1..] == letters[1..] + digits;
      LettersComeFirst(letters[1..], digits);
    }
  }

  lemma UpperStays(s: string)
    requires forall k :: 0 <= k < |s| ==> IsUpper(s[k]) || IsDecimal(s[k])
    ensures Uppercase(s) == s
  {}

  lemma CellIsRead(letters: string, digits: string)
    requires letters != [] && AllUpper(letters) && digits != []
    requires forall k :: 0 <= k < |digits| ==> IsDecimal(digits[k])
    ensures var s := letters + digits;
            IsCell(s) && s[..LeadingLetters(s)] == letters && s[LeadingLetters(s)..] == digits && Uppercase(s) == s
  {
    var s := letters + digits;
    LettersComeFirst(letters, digits);
    assert s[..|letters|] == letters && s[|letters|..] == digits;
    forall k | |letters| <= k < |s| ensures IsDecimal(s[k]) { assert s[k] == digits[k - |letters|]; }
    UpperStays(s);
  }

  lemma CellIsFrozen(address: string, letters: string, digits: string, n: nat, r: nat)
    requires letters != [] && AllUpper(letters) && digits != []
    requires forall k :: 0 <= k < |digits| ==> IsDecimal(digits[k])
    requires Bare(UpToColon(AfterSheet(address))) == letters + digits
    requires Column(letters) == n && Uppercase(letters) == letters && Digits.Parse(digits, 10) == r + 1
    ensures FrozenAt(address) == Cell(r, n, letters + digits)
  {
    CellIsRead(letters, digits);
  }

  // A text is its leading letters and the decimal digits behind them.
  ghost predicate IsLettersAndDigits(s: string, letters: string, digits: string) {
    && s == letters + digits && letters != [] && AllLetters(letters)
    && digits != [] && forall k :: 0 <= k < |digits| ==> IsDecimal(digits[k])
  }

  lemma CellExactly(s: string)
    ensures IsCell(s) <==> exists letters, digits :: IsLettersAndDigits(s, letters, digits)
  {
    if IsCell(s) {
      var n := LeadingLetters(s);
      assert s == s[..n] + s[n..] && IsLettersAndDigits(s, s[..n], s[n..]);
    }
    if letters, digits :| IsLettersAndDigits(s, letters, digits) {
      LettersComeFirst(letters, digits);
      forall k | |letters| <= k < |s| ensures IsDecimal(s[k]) { assert s[k] == digits[k - |letters|]; }
    }
  }

  lemma {:induction false} CellIsFound(s: string, letters: string, digits: string)
    requires IsLettersAndDigits(s, letters, digits)
    ensures IsCell(s) && s[..LeadingLetters(s)] == letters && s[LeadingLetters(s)..] == digits
  {
    CellExactly(s);
    LettersComeFirst(letters, digits);
  }

  lemma {:induction false} CellIsCounted(address: string, letters: string, digits: string)
    requires IsLettersAndDigits(Bare(UpToColon(AfterSheet(address))), letters, digits)
    ensures FrozenAt(address) ==
            Cell(if Digits.Parse(digits, 10) == 0 then 0 else Digits.Parse(digits, 10) - 1,
                 Column(Uppercase(letters)), Uppercase(letters + digits))
  {
    StartIsCounted(address, Bare(UpToColon(AfterSheet(address))), letters, digits);
  }

  lemma {:induction false} StartIsCounted(address: string, start: string, letters: string, digits: string)
    requires start == Bare(UpToColon(AfterSheet(address))) && IsLettersAndDigits(start, letters, digits)
    ensures FrozenAt(address) == CellOf(letters, digits, start)
  {
    CellIsFound(start, letters, digits);
  }

  lemma {:induction false} OtherIsKept(address: string)
    requires forall letters, digits ::
               !IsLettersAndDigits(Bare(UpToColon(AfterSheet(address))), letters, digits)
    ensures FrozenAt(address) == Unparsed(if AfterSheet(address) == [] then None else Some(AfterSheet(address)))
  {
    CellExactly(Bare(UpToColon(AfterSheet(address))));
  }

  // An address whose first part, without quotes and dollar signs, is letters and digits
  // gives that cell, counted from zero; from any other one only the address is kept, as
  // from "1:3", and nothing from an empty one.
  lemma {:induction false} FrozenExactly(sheet: string, start: string, tail: string, letters: string, digits: string)
    requires '!' !in start + tail && ':' !in start && (tail == [] || tail[0] == ':')
    ensures IsLettersAndDigits(Bare(start), letters, digits) ==>
              FrozenAt(sheet + "!" + (start + tail)) ==
              Cell(if Digits.Parse(digits, 10) == 0 then 0 else Digits.Parse(digits, 10) - 1,
                   Column(Uppercase(letters)), Uppercase(letters + digits))
    ensures (forall letters, digits :: !IsLettersAndDigits(Bare(start), letters, digits)) ==>
              FrozenAt(sheet + "!" + (start + tail))
              == Unparsed(if start + tail == [] then None else Some(start + tail))
    ensures FrozenAt(start + tail) == FrozenAt(sheet + "!" + (start + tail))
  {
    var address := sheet + "!" + (start + tail);
    AfterSheetOf(sheet, start + tail);
    UpToColonOf(start, tail);
    if IsLettersAndDigits(Bare(start), letters, digits) { CellIsCounted(address, letters, digits); }
    if forall letters, digits :: !IsLettersAndDigits(Bare(start), letters, digits) { OtherIsKept(address); }
  }

  // Only quotes and dollar signs are dropped.
  lemma {:induction false} BareExactly(s: string, c: char)
    ensures multiset(Bare(s))[c] == if c == '\'' || c == '$' then 0 else multiset(s)[c]
  {
    if s != [] {
      BareExactly(s[1..], c);
      assert s == [s[0]] + s[1..];
    }
  }

  // The letters of a column in lower case name it too.
  lemma CaseIsIgnored(s: string, lowered: string)
    requires AllUpper(s) && |lowered| == |s|
    requires forall k :: 0 <= k < |s| ==> lowered[k] == s[k] || lowered[k] as int == s[k] as int + 32
    ensures AllLetters(lowered) && Column(Uppercase(lowered)) == Column(s)
  {
    assert Uppercase(lowered) == s;
  }

  // The frozen state read off the address of a range names its first row and column.
  lemma FrozenRoundTrip(sheet: string, n: nat, r: nat, tail: string)
    requires '!' !in tail && (tail == [] || tail[0] == ':')
    ensures FrozenAt(Address(sheet, n, r, tail)) == Cell(r, n, Letters(n) + Digits.Print(r + 1, 10))
  {
    var letters, digits := Letters(n), Digits.Print(r + 1, 10);
    ColumnOfLetters(n);
    Digits.PrintIsDecimal(r + 1);
    Digits.PrintRoundTrip(r + 1, 10);
    UpperStays(letters);
    AddressStarts(sheet, letters, digits, tail);
    CellIsFrozen(Address(sheet, n, r, tail), letters, digits, n, r);
  }

  lemma {:induction false} AddressStarts(sheet: string, letters: string, digits: string, tail: string)
    requires AllUpper(letters) && forall k :: 0 <= k < |digits| ==> IsDecimal(digits[k])
    requires '!' !in tail && (tail == [] || tail[0] == ':')
    ensures Bare(UpToColon(AfterSheet(sheet + "!" + ("$" + letters + "$" + digits + tail)))) == letters + digits
  {
    CellHasNoMarks(letters, digits);
    AfterSheetOf(sheet, "$" + letters + "$" + digits + tail);
    UpToColonOf("$" + letters + "$" + digits, tail);
    BareCell(letters, digits);
  }
}
