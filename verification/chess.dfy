/** Chess-style cell labels: a zero-based (column, row) grid cell is written
    as the bijective base-26 numeral of `column + 1` in the letters A-Z
    (at most two letters) followed by the decimal numeral of `row + 1`,
    so that cell (0, 0) is "A1" and cell (701, 10) is "ZZ11". */
module Chess {
  import opened Wrappers
  import opened Text

  /** One more than the largest column the encoder accepts: 27 * 26 = 702. */
  const ColumnLimit: int := 27 * 26

  predicate IsUpper(c: char) {
    'A' <= c <= 'Z'
  }

  predicate AllUpper(s: string) {
    forall i :: 0 <= i < |s| ==> IsUpper(s[i])
  }

  /** The `i`-th letter of the alphabet "ABC...Z", counted from zero. */
  function Letter(i: nat): (c: char)
    requires i < 26
    ensures IsUpper(c) && c as int - 'A' as int == i
  {
    ('A' as int + i) as char
  }

  /** The value of a bijective base-26 numeral: A = 1, ..., Z = 26, AA = 27. */
  function LettersValue(s: string): (v: nat)
    requires AllUpper(s)
    ensures |s| > 0 ==> v >= 1
  {
    if |s| == 0 then 0
    else LettersValue(s[..|s| - 1]) * 26 + (s[|s| - 1] as int - 'A' as int + 1)
  }

  /** The bijective base-26 numeral of a positive number; `LettersValue`
      reads it back. */
  function Bijective(n: nat): (r: string)
    requires n >= 1
    ensures |r| >= 1 && AllUpper(r)
    ensures LettersValue(r) == n
    ensures n <= 26 <==> |r| == 1
    ensures n <= ColumnLimit ==> |r| <= 2
  {
    if n <= 26 then [Letter(n - 1)]
    else
      var p := Bijective((n - 1) / 26);
      var r := p + [Letter((n - 1) % 26)];
      assert r[..|r| - 1] == p;
      r
  }

  /** The letters naming a zero-based column. */
  function ColumnLetters(column: nat): string
    requires column < ColumnLimit
  {
    Bijective(column + 1)
  }

  /** The number of leading upper-case letters of `s`. */
  function LeadingLetters(s: string): (k: nat)
    ensures k <= |s| && AllUpper(s[..k])
    ensures k < |s| ==> !IsUpper(s[k])
  {
    if |s| > 0 && IsUpper(s[0]) then
      var k := 1 + LeadingLetters(s[1..]);
      assert s[..k] == [s[0]] + s[1..][..k - 1];
      k
    else 0
  }

  /** A label as the encoder writes it for a non-negative row: one or two
      upper-case letters, then a decimal numeral without a leading zero. */
  predicate IsLabel(s: string) {
    var k := LeadingLetters(s);
    && 1 <= k <= 2
    && k < |s|
    && AllDigits(s[k..])
    && s[k] != '0'
  }

  /** `from_map_coordinates` on the columns it is meant for, [0, 702):
      columns from 702 up panic, and negative columns are the subject of
      `FromMapCoordinatesAsWritten`, which also carries the source's padding
      space and `trim`. A column of 26 or more gets a first letter from
      `column / 26`; every column gets a letter from `column % 26`; the row
      is an `i32`, and `row + 1` must not overflow. */
  function FromMapCoordinates(column: I32, row: I32): (r: string)
    requires 0 <= column < ColumnLimit
    requires row < MaxI32
    ensures r == ColumnLetters(column) + IntToDecimal(row + 1)
  {
    var first := column / 26;
    var second := column % 26;
    assert column >= 26 ==> Bijective(column + 1) == [Letter(first - 1), Letter(second)];
    (if column >= 26 then [Letter(first - 1)] else []) + [Letter(second)] + IntToDecimal(row + 1)
  }

  /** For a non-negative row a label is one or two letters and a decimal
      numeral without a leading zero. */
  lemma LabelShape(column: I32, row: I32)
    requires 0 <= column < ColumnLimit
    requires 0 <= row < MaxI32
    ensures IsLabel(FromMapCoordinates(column, row))
  {
    LabelSplit(ColumnLetters(column), NatToDecimal(row + 1));
  }

  /** Letters followed by digits split at the end of the letters. */
  lemma LabelSplit(letters: string, digits: string)
    requires AllUpper(letters) && |digits| > 0 && !IsUpper(digits[0])
    ensures LeadingLetters(letters + digits) == |letters|
    ensures (letters + digits)[..|letters|] == letters
    ensures (letters + digits)[|letters|..] == digits
  {
    if |letters| > 0 {
      assert (letters + digits)[1..] == letters[1..] + digits;
      LabelSplit(letters[1..], digits);
    }
  }

  /** Why a label cannot be read back into a cell. */
  datatype ParseError =
    | NoMatch    // not one or more letters A-Z followed by one or more digits
    | BadNumber  // the row number is zero or does not fit an `i32`

  /** The decoder the source's commented-out `to_map_coordinates` tests
      describe: letters A-Z then decimal digits; the letters are a bijective
      base-26 numeral and the digits a positive `i32`, both made zero-based. */
  function ToMapCoordinates(s: string): (r: Result<(int, int), ParseError>)
    ensures r.Success? ==> r.value.0 >= 0 && 0 <= r.value.1 < MaxI32
  {
    var k := LeadingLetters(s);
    if k == 0 || k == |s| || !AllDigits(s[k..]) then Failure(NoMatch)
    else
      var n := DecimalValue(s[k..]);
      if n == 0 || n > MaxI32 then Failure(BadNumber)
      else Success((LettersValue(s[..k]) - 1, n - 1))
  }

  /** Reading a bijective numeral and writing its value back gives the
      numeral, whatever its length. */
  lemma {:induction false} LettersRoundTrip(s: string)
    requires |s| > 0 && AllUpper(s)
    ensures Bijective(LettersValue(s)) == s
  {
    var p, last := s[..|s| - 1], s[|s| - 1];
    var d := last as int - 'A' as int;
    assert Letter(d) == last;
    assert s == p + [last];
    assert LettersValue(s) == LettersValue(p) * 26 + d + 1;
    if |s| == 1 {
      assert LettersValue(p) == 0;
    } else {
      LettersRoundTrip(p);
      DivMod26(LettersValue(p), d);
      assert Bijective(LettersValue(s)) == Bijective(LettersValue(p)) + [Letter(d)];
    }
  }

  lemma DivMod26(q: int, d: int)
    requires 0 <= d < 26
    ensures (q * 26 + d) / 26 == q && (q * 26 + d) % 26 == d
  {
  }

  /** The decoder on a text made of letters and then digits. */
  lemma ToMapOfParts(letters: string, digits: string)
    requires |letters| > 0 && AllUpper(letters)
    requires |digits| > 0 && AllDigits(digits)
    ensures 0 < DecimalValue(digits) <= MaxI32 ==>
      ToMapCoordinates(letters + digits) == Success((LettersValue(letters) - 1, DecimalValue(digits) - 1))
  {
    var s := letters + digits;
    assert !IsUpper(digits[0]);
    LabelSplit(letters, digits);
    assert LeadingLetters(s) == |letters|;
    assert AllDigits(s[|letters|..]);
  }

  /** Decoding an encoded cell recovers the cell. */
  lemma DecodeEncode(column: I32, row: I32)
    requires 0 <= column < ColumnLimit
    requires 0 <= row < MaxI32
    ensures ToMapCoordinates(FromMapCoordinates(column, row)) == Success((column, row))
  {
    ToMapOfParts(ColumnLetters(column), NatToDecimal(row + 1));
  }

  /** Encoding a decoded label gives the label back, provided the label is
      in the encoder's own form: a column below 702 and no leading zero in
      the row number. */
  lemma EncodeDecode(s: string)
    requires ToMapCoordinates(s).Success?
    requires ToMapCoordinates(s).value.0 < ColumnLimit
    requires s[LeadingLetters(s)] != '0'
    ensures FromMapCoordinates(ToMapCoordinates(s).value.0, ToMapCoordinates(s).value.1) == s
  {
    var k := LeadingLetters(s);
    DecodedParts(s);
    var cell := ToMapCoordinates(s).value;
    assert s[k..][0] == s[k];
    EncodeOfParts(s[..k], s[k..], cell.0, cell.1);
    SplitJoins(s, k);
  }

  /** Cutting a text at any point and joining the halves gives it back. */
  lemma SplitJoins(s: string, k: nat)
    requires k <= |s|
    ensures s[..k] + s[k..] == s
  {
  }

  /** What a successful decode read: letters, then digits whose value fits
      an `i32`. */
  lemma DecodedParts(s: string)
    requires ToMapCoordinates(s).Success?
    ensures 0 < LeadingLetters(s) < |s| && AllDigits(s[LeadingLetters(s)..])
    ensures 0 < DecimalValue(s[LeadingLetters(s)..]) <= MaxI32
    ensures ToMapCoordinates(s).value.0 == LettersValue(s[..LeadingLetters(s)]) - 1
    ensures ToMapCoordinates(s).value.1 == DecimalValue(s[LeadingLetters(s)..]) - 1
  {
    var k := LeadingLetters(s);
    assert 0 < k < |s| && AllDigits(s[k..]);
    var n := DecimalValue(s[k..]);
    assert 0 < n <= MaxI32;
  }

  /** Letters and a digit string without a leading zero, in the encoder's
      range, are what the encoder writes for the values they denote. */
  lemma EncodeOfParts(letters: string, digits: string, column: I32, row: I32)
    requires |letters| > 0 && AllUpper(letters) && LettersValue(letters) <= ColumnLimit
    requires |digits| > 0 && AllDigits(digits) && digits[0] != '0' && DecimalValue(digits) <= MaxI32
    requires column == LettersValue(letters) - 1 && row == DecimalValue(digits) - 1
    ensures FromMapCoordinates(column, row) == letters + digits
  {
    var v, n := LettersValue(letters), DecimalValue(digits);
    DecimalValuePositive(digits);
    LettersRoundTrip(letters);
    DecimalRoundTrip(digits);
    assert ColumnLetters(v - 1) == letters;
    assert IntToDecimal(n) == digits;
  }

  /** Distinct cells get distinct labels. */
  lemma FromMapInjective(c1: I32, r1: I32, c2: I32, r2: I32)
    requires 0 <= c1 < ColumnLimit && 0 <= r1 < MaxI32
    requires 0 <= c2 < ColumnLimit && 0 <= r2 < MaxI32
    requires FromMapCoordinates(c1, r1) == FromMapCoordinates(c2, r2)
    ensures c1 == c2 && r1 == r2
  {
    DecodeEncode(c1, r1);
    DecodeEncode(c2, r2);
  }

  /** One literal label, assembled from its letters and its digits. */
  lemma LabelIs(column: I32, row: I32, letters: string, digits: string)
    requires 0 <= column < ColumnLimit && 0 <= row < MaxI32
    requires Bijective(column + 1) == letters && NatToDecimal(row + 1) == digits
    ensures FromMapCoordinates(column, row) == letters + digits
  {
  }

  /** The source's test labels for the first columns. */
  lemma FromMapExamplesFirstLetters()
    ensures FromMapCoordinates(0, 0) == "A1"
    ensures FromMapCoordinates(0, 4) == "A5"
    ensures FromMapCoordinates(1, 1) == "B2"
  {
    LabelIs(0, 0, "A", "1");
    LabelIs(0, 4, "A", "5");
    LabelIs(1, 1, "B", "2");
  }

  /** The source's test labels where one letter turns into two. */
  lemma FromMapExamplesAcrossZ()
    ensures FromMapCoordinates(25, 0) == "Z1"
    ensures FromMapCoordinates(26, 0) == "AA1"
    ensures FromMapCoordinates(27, 0) == "AB1"
  {
    LabelIs(25, 0, "Z", "1");
    LabelIs(26, 0, "AA", "1");
    LabelIs(27, 0, "AB", "1");
  }

  /** The source's test labels where the first letter turns from Y to Z. */
  lemma FromMapExamplesYZToZA()
    ensures FromMapCoordinates(675, 0) == "YZ1"
    ensures FromMapCoordinates(676, 0) == "ZA1"
  {
    LabelIs(675, 0, "YZ", "1");
    LabelIs(676, 0, "ZA", "1");
  }

  /** The source's test labels for the last columns, up to the largest one. */
  lemma FromMapExamplesLast()
    ensures FromMapCoordinates(677, 0) == "ZB1"
    ensures FromMapCoordinates(701, 0) == "ZZ1"
  {
    LabelIs(677, 0, "ZB", "1");
    LabelIs(701, 0, "ZZ", "1");
  }

  /** The commented-out decoder tests on the last column. */
  lemma ToMapExamplesLast()
    ensures ToMapCoordinates("ZZ1") == Success((701, 0))
    ensures ToMapCoordinates("ZZ11") == Success((701, 10))
  {
    FromMapExamplesLast();
    DecodeEncode(701, 0);
    ZZ11();
    DecodeEncode(701, 10);
  }

  lemma ZZ11()
    ensures FromMapCoordinates(701, 10) == "ZZ11"
  {
    assert NatToDecimal(11) == "11";
  }

  /** The commented-out decoder tests on the first columns. */
  lemma ToMapExamplesFirstLetters()
    ensures ToMapCoordinates("A1") == Success((0, 0))
    ensures ToMapCoordinates("A5") == Success((0, 4))
    ensures ToMapCoordinates("B2") == Success((1, 1))
  {
    FromMapExamplesFirstLetters();
    DecodeEncode(0, 0);
    DecodeEncode(0, 4);
    DecodeEncode(1, 1);
  }

  /** The commented-out decoder tests where one letter turns into two. */
  lemma ToMapExamplesAcrossZ()
    ensures ToMapCoordinates("Z1") == Success((25, 0))
    ensures ToMapCoordinates("AA1") == Success((26, 0))
    ensures ToMapCoordinates("AB1") == Success((27, 0))
  {
    FromMapExamplesAcrossZ();
    DecodeEncode(25, 0);
    DecodeEncode(26, 0);
    DecodeEncode(27, 0);
  }

  /** The commented-out decoder tests around the first letter Z. */
  lemma ToMapExamplesZBlock()
    ensures ToMapCoordinates("YZ1") == Success((675, 0))
    ensures ToMapCoordinates("ZA1") == Success((676, 0))
    ensures ToMapCoordinates("ZB1") == Success((677, 0))
  {
    FromMapExamplesYZToZA();
    DecodeEncode(675, 0);
    DecodeEncode(676, 0);
    FromMapExamplesLast();
    DecodeEncode(677, 0);
  }

  /** `from_map_coordinates` exactly as written, over every `i32` input, with
      `None` for a panic. Rust's `/` and `%` truncate toward zero, and only
      `column >= 702` is rejected up front: a negative column whose remainder
      is not zero indexes the alphabet at a wrapped-around `usize` and panics,
      while a negative multiple of 26 slips through. */
  function FromMapCoordinatesAsWritten(column: I32, row: I32): (r: Option<string>)
    ensures column >= ColumnLimit ==> r.None?
    ensures column < 0 && TruncRem(column, 26) != 0 ==> r.None?
    ensures row == MaxI32 ==> r.None?
  {
    if column >= ColumnLimit then None
    else
      var first := TruncDiv(column, 26);
      var second := TruncRem(column, 26);
      if second < 0 || row == MaxI32 then None
      else Some(Trim([if column >= 26 then Letter(first - 1) else ' ', Letter(second)] + IntToDecimal(row + 1)))
  }

  /** A decimal numeral neither starts nor ends with whitespace. */
  lemma DecimalBorders(n: int)
    ensures |IntToDecimal(n)| > 0
    ensures !IsWhitespace(IntToDecimal(n)[0])
    ensures !IsWhitespace(IntToDecimal(n)[|IntToDecimal(n)| - 1])
  {
    var d := NatToDecimal(if n >= 0 then n else -n);
    assert IsDigit(d[0]) && IsDigit(d[|d| - 1]);
  }

  /** Below column 26 the source pads with a space, which `trim` removes. */
  lemma PaddedTrimSpace(second: nat, digits: string)
    requires second < 26
    requires |digits| > 0 && !IsWhitespace(digits[|digits| - 1])
    ensures Trim([' ', Letter(second)] + digits) == [Letter(second)] + digits
  {
    var tail := [Letter(second)] + digits;
    assert [' ', Letter(second)] + digits == [' '] + tail;
    TrimDropsLeadingSpace(' ', tail);
  }

  /** From column 26 on there is no padding, and `trim` changes nothing. */
  lemma PaddedTrimLetter(lead: char, second: nat, digits: string)
    requires IsUpper(lead) && second < 26
    requires |digits| > 0 && !IsWhitespace(digits[|digits| - 1])
    ensures Trim([lead, Letter(second)] + digits) == [lead] + [Letter(second)] + digits
  {
    var padded := [lead, Letter(second)] + digits;
    assert padded == [lead] + [Letter(second)] + digits;
    TrimUntouched(padded);
  }

  /** On [0, 702), and when `row + 1` does not overflow, the source's
      encoder does not panic and writes the label `FromMapCoordinates` does. */
  lemma AsWrittenAgrees(column: I32, row: I32)
    requires 0 <= column < ColumnLimit && row < MaxI32
    ensures FromMapCoordinatesAsWritten(column, row) == Some(FromMapCoordinates(column, row))
  {
    DecimalBorders(row + 1);
    if column >= 26 {
      AsWrittenAgreesTwoLetters(column, row);
    } else {
      AsWrittenAgreesOneLetter(column, row);
    }
  }

  /** On a non-negative dividend, truncating and Euclidean division agree. */
  lemma TruncOfNatural(a: int, b: int)
    requires a >= 0 && b > 0
    ensures TruncDiv(a, b) == a / b && TruncRem(a, b) == a % b
  {
  }

  /** On a non-negative column the source's arithmetic is Euclidean. */
  lemma AsWrittenOfNatural(column: I32, row: I32)
    requires 0 <= column < ColumnLimit && row < MaxI32
    ensures FromMapCoordinatesAsWritten(column, row)
      == Some(Trim([if column >= 26 then Letter(column / 26 - 1) else ' ', Letter(column % 26)] + IntToDecimal(row + 1)))
  {
    var first, rem := TruncDiv(column, 26), TruncRem(column, 26);
    TruncOfNatural(column, 26);
    var padded := [if column >= 26 then Letter(first - 1) else ' ', Letter(rem)];
    assert padded == [if column >= 26 then Letter(column / 26 - 1) else ' ', Letter(column % 26)];
  }

  lemma AsWrittenAgreesTwoLetters(column: I32, row: I32)
    requires 26 <= column < ColumnLimit && row < MaxI32
    requires |IntToDecimal(row + 1)| > 0 && !IsWhitespace(IntToDecimal(row + 1)[|IntToDecimal(row + 1)| - 1])
    ensures FromMapCoordinatesAsWritten(column, row) == Some(FromMapCoordinates(column, row))
  {
    var digits := IntToDecimal(row + 1);
    assert 1 <= column / 26 <= 26 && 0 <= column % 26 < 26;
    var lead, second := Letter(column / 26 - 1), Letter(column % 26);
    AsWrittenOfNatural(column, row);
    PaddedTrimLetter(lead, column % 26, digits);
    assert FromMapCoordinates(column, row) == [lead] + [second] + digits;
  }

  lemma AsWrittenAgreesOneLetter(column: I32, row: I32)
    requires 0 <= column < 26 && row < MaxI32
    requires |IntToDecimal(row + 1)| > 0 && !IsWhitespace(IntToDecimal(row + 1)[|IntToDecimal(row + 1)| - 1])
    ensures FromMapCoordinatesAsWritten(column, row) == Some(FromMapCoordinates(column, row))
  {
    var digits := IntToDecimal(row + 1);
    assert column / 26 == 0 && column % 26 == column;
    AsWrittenOfNatural(column, row);
    PaddedTrimSpace(column, digits);
    assert FromMapCoordinates(column, row) == [] + [Letter(column)] + digits;
  }

  /** Every negative multiple of 26 is labelled like column 0, so the
      unguarded encoder gives two different cells the same label. */
  lemma NegativeColumnAliases(k: nat, row: I32)
    requires 1 <= k && -26 * k >= MinI32
    requires row < MaxI32
    ensures FromMapCoordinatesAsWritten(-26 * k, row) == Some(FromMapCoordinates(0, row))
  {
    assert TruncRem(-26 * k, 26) == 0;
    DecimalBorders(row + 1);
    PaddedTrimSpace(0, IntToDecimal(row + 1));
  }

  /** The concrete collision: cells (-26, 0) and (0, 0) are both "A1". */
  lemma NegativeColumnCollision()
    ensures FromMapCoordinatesAsWritten(-26, 0) == Some("A1")
    ensures FromMapCoordinatesAsWritten(0, 0) == Some("A1")
  {
    NegativeColumnAliases(1, 0);
    AsWrittenAgrees(0, 0);
    FromMapExamplesFirstLetters();
  }
}
