/**
 * Spreadsheet column letters: column 0 is "A", 25 is "Z", 26 is "AA".
 * The numbering is bijective base 26 (no digit stands for zero), which is
 * why each step subtracts one after dividing.
 */
module ColumnCodec {

  predicate IsLetters(s: string) {
    forall i :: 0 <= i < |s| ==> 'A' <= s[i] <= 'Z'
  }

  /** `chr(d + ord("A"))` */
  function Letter(d: nat): (c: char)
    requires d < 26
    ensures 'A' <= c <= 'Z'
  {
    (65 + d) as char
  }

  /** The position of a letter in the alphabet, 'A' being 0. */
  function LetterIndex(c: char): (d: nat)
    requires 'A' <= c <= 'Z'
    ensures d < 26 && Letter(d) == c
  {
    c as int - 65
  }

  /** The letters of zero-based column `n`. */
  function Encode(n: nat): (s: string)
    ensures s != [] && IsLetters(s)
  {
    if n < 26 then [Letter(n)] else Encode(n / 26 - 1) + [Letter(n % 26)]
  }

  /** The bijective base-26 value of a run of letters ("A" is 1, "AA" is 27). */
  function Value(s: string): (v: nat)
    requires IsLetters(s)
    ensures s != [] ==> v >= 1
  {
    if s == [] then 0 else Value(s[..|s| - 1]) * 26 + LetterIndex(s[|s| - 1]) + 1
  }

  /** The zero-based column a non-empty run of letters names. */
  function Decode(s: string): nat
    requires s != [] && IsLetters(s)
  {
    Value(s) - 1
  }

  /** Decoding the letters of column `n` gives back `n`. */
  lemma {:induction false} DecodeEncode(n: nat)
    ensures Decode(Encode(n)) == n
  {
    var s := Encode(n);
    if n >= 26 {
      DecodeEncode(n / 26 - 1);
      assert s[..|s| - 1] == Encode(n / 26 - 1);
      assert Value(s) == (n / 26) * 26 + n % 26 + 1;
    }
  }

  /** Every non-empty run of letters is the encoding of exactly one column. */
  lemma {:induction false} EncodeDecode(s: string)
    requires s != [] && IsLetters(s)
    ensures Encode(Decode(s)) == s
  {
    var p, d := s[..|s| - 1], LetterIndex(s[|s| - 1]);
    if p == [] {
      assert Value(s) == Value(p) * 26 + d + 1;
      assert s == [s[0]];
    } else {
      EncodeDecode(p);
      var n := Decode(s);
      assert n == Value(p) * 26 + d;
      assert n / 26 == Value(p) && n % 26 == d;
      assert s == p + [s[|s| - 1]];
    }
  }

  /** Distinct columns get distinct letters. */
  lemma EncodeInjective(m: nat, n: nat)
    requires Encode(m) == Encode(n)
    ensures m == n
  {
    DecodeEncode(m);
    DecodeEncode(n);
  }

  /** The cases a spreadsheet user can check by eye. */
  lemma EncodeExamples()
    ensures Encode(0) == "A" && Encode(25) == "Z"
    ensures Encode(26) == "AA" && Encode(701) == "ZZ" && Encode(702) == "AAA"
  {
    assert Encode(0) == [Letter(0)];
    assert Encode(26) == Encode(0) + [Letter(0)];
    assert Encode(701) == Encode(25) + [Letter(25)];
    assert Encode(702) == Encode(26) + [Letter(0)];
  }

  /** The letters `colnum_to_excel_col` yields for any integer: none for a negative one. */
  function ColumnName(c: int): string {
    if c < 0 then "" else Encode(c)
  }

  /** One pass of the conversion loop: the last letter, after the letters of the columns above. */
  lemma ColumnNameStep(c: int, q: int, d: int, suffix: string)
    requires c >= 0 && q == c / 26 - 1 && d == c % 26
    ensures -1 <= q < c && 0 <= d < 26
    ensures ColumnName(c) + suffix == ColumnName(q) + ([Letter(d)] + suffix)
  {
    assert ColumnName(c) == ColumnName(q) + [Letter(d)];
  }

  /** `colnum_to_excel_col`: bijective base 26 for a column index, "" for a negative one. */
  method ColumnLetters(colNum: int) returns (result: string)
    ensures colNum < 0 ==> result == ""
    ensures colNum >= 0 ==> result == Encode(colNum)
  {
    result := "";
    var c := colNum;
    while c >= 0
      invariant c <= colNum
      invariant ColumnName(colNum) == ColumnName(c) + result
      decreases c + 1
    {
      var q, d := c / 26 - 1, c % 26;
      ColumnNameStep(c, q, d, result);
      result := [Letter(d)] + result;
      c := q;
    }
  }
}
