/**
 * The string operations the script relies on: `startswith`/`endswith`,
 * `split("/")[-1]`, `replace(".rels", "")`, `str(int)`, `int(str)` and
 * `"\n".join(...)`.
 */
module Text {
  import opened Wrappers

  predicate StartsWith(s: string, prefix: string) {
    |prefix| <= |s| && s[..|prefix|] == prefix
  }

  predicate EndsWith(s: string, suffix: string) {
    |suffix| <= |s| && s[|s| - |suffix|..] == suffix
  }

  /**
   * `s.split("/")[-1]` (and `os.path.basename(s)` on POSIX paths): what
   * follows the last '/', or all of `s` when it has none.
   */
  function LastComponent(s: string): (r: string)
    ensures '/' !in r
  {
    if s == [] then []
    else if s[|s| - 1] == '/' then []
    else LastComponent(s[..|s| - 1]) + [s[|s| - 1]]
  }

  /** The last component is a tail of the path that is all of it or follows a '/'. */
  lemma {:induction false} LastComponentIsTail(s: string)
    ensures EndsWith(s, LastComponent(s))
    ensures LastComponent(s) == s || (|LastComponent(s)| < |s| && s[|s| - |LastComponent(s)| - 1] == '/')
  {
    if s != [] && s[|s| - 1] != '/' {
      var init := s[..|s| - 1];
      var c := s[|s| - 1];
      LastComponentIsTail(init);
      var r := LastComponent(init);
      assert LastComponent(s) == r + [c];
      assert s == init + [c];
      assert s[|s| - |r| - 1..] == init[|init| - |r|..] + [c];
      if r != init {
        assert s[|s| - |r| - 2] == init[|init| - |r| - 1];
      }
    }
  }

  /** The last component of `dir/name` is `name` whenever `name` holds no '/'. */
  lemma {:induction false} LastComponentOfJoin(dir: string, name: string)
    requires '/' !in name
    ensures LastComponent(dir + "/" + name) == name
  {
    if name != [] {
      var s := dir + "/" + name;
      assert s[..|s| - 1] == dir + "/" + name[..|name| - 1];
      LastComponentOfJoin(dir, name[..|name| - 1]);
      assert name == name[..|name| - 1] + [name[|name| - 1]];
    } else {
      assert (dir + "/" + name)[|dir|] == '/';
    }
  }

  /** The position of the last `c` in `s`, if any. */
  function LastIndexOf(s: string, c: char): (k: Option<nat>)
    ensures k.Some? ==> k.value < |s| && s[k.value] == c && c !in s[k.value + 1..]
    ensures k.None? ==> c !in s
  {
    if s == [] then None
    else if s[|s| - 1] == c then Some(|s| - 1)
    else
      var init := s[..|s| - 1];
      var k := LastIndexOf(init, c);
      assert s == init + [s[|s| - 1]];
      assert k.Some? ==> s[k.value + 1..] == init[k.value + 1..] + [s[|s| - 1]];
      k
  }

  /** The last `c` of `a + [c] + b` is the one between them when `b` holds none. */
  lemma {:induction false} LastIndexOfJoin(a: string, c: char, b: string)
    requires c !in b
    ensures LastIndexOf(a + [c] + b, c) == Some(|a|)
    decreases |b|
  {
    var s := a + [c] + b;
    if b != [] {
      assert s[..|s| - 1] == a + [c] + b[..|b| - 1];
      assert s[|s| - 1] == b[|b| - 1];
      LastIndexOfJoin(a, c, b[..|b| - 1]);
    }
  }

  predicate OccursAt(s: string, pat: string, i: nat) {
    i + |pat| <= |s| && s[i..i + |pat|] == pat
  }

  predicate Contains(s: string, pat: string) {
    exists i: nat :: i <= |s| && OccursAt(s, pat, i)
  }

  /**
   * `s.replace(pat, "")`: every occurrence of `pat`, found left to right
   * without overlap, is removed.
   */
  function RemoveAll(s: string, pat: string): (r: string)
    requires pat != []
    ensures |r| <= |s|
    ensures forall c :: c in r ==> c in s
    ensures !Contains(s, pat) ==> r == s
    decreases |s|
  {
    if |s| < |pat| then s
    else if s[..|pat|] == pat then
      assert OccursAt(s, pat, 0);
      RemoveAll(s[|pat|..], pat)
    else
      ContainsTail(s, pat);
      assert s == [s[0]] + s[1..];
      [s[0]] + RemoveAll(s[1..], pat)
  }

  /** An occurrence in the tail of `s` is an occurrence in `s`. */
  lemma ContainsTail(s: string, pat: string)
    requires s != []
    ensures Contains(s[1..], pat) ==> Contains(s, pat)
  {
    if Contains(s[1..], pat) {
      var i: nat :| i <= |s[1..]| && OccursAt(s[1..], pat, i);
      assert s[i + 1..i + 1 + |pat|] == s[1..][i..i + |pat|];
      assert OccursAt(s, pat, i + 1);
    }
  }

  const RelsExtension := ".rels"

  /**
   * Removing ".rels" from `t + ".rels"` gives back `t` when `t` itself holds
   * no ".rels": no occurrence can straddle the join, because '.' occurs in
   * ".rels" only at its start.
   */
  lemma {:induction false} RemoveRelsSuffix(t: string)
    requires !Contains(t, RelsExtension)
    ensures RemoveAll(t + RelsExtension, RelsExtension) == t
  {
    var s := t + RelsExtension;
    if t == [] {
      assert s[..|RelsExtension|] == RelsExtension;
      assert s[|RelsExtension|..] == [];
    } else {
      RelsSuffixHead(t);
      ContainsTail(t, RelsExtension);
      RemoveRelsSuffix(t[1..]);
      assert s[1..] == t[1..] + RelsExtension;
      assert RemoveAll(s, RelsExtension) == [t[0]] + t[1..];
      assert t == [t[0]] + t[1..];
    }
  }

  /** A non-empty `t` free of ".rels" does not begin an occurrence of it when the extension is appended. */
  lemma RelsSuffixHead(t: string)
    requires t != [] && !Contains(t, RelsExtension)
    ensures |t + RelsExtension| >= |RelsExtension| && (t + RelsExtension)[..|RelsExtension|] != RelsExtension
  {
    var s := t + RelsExtension;
    if |t| >= |RelsExtension| {
      assert s[..|RelsExtension|] == t[0..|RelsExtension|];
      assert !OccursAt(t, RelsExtension, 0);
    } else {
      assert s[|t|] == '.';
      assert RelsExtension[|t|] != '.';
    }
  }


  predicate IsDigit(c: char) { '0' <= c <= '9' }

  predicate AllDigits(s: string) { forall i :: 0 <= i < |s| ==> IsDigit(s[i]) }

  function DigitChar(d: nat): (c: char)
    requires d < 10
    ensures IsDigit(c)
  {
    (48 + d) as char
  }

  /** Decimal digits of `n`, most significant first, no leading zeros. */
  function Digits(n: nat): (s: string)
    ensures s != [] && AllDigits(s)
  {
    if n < 10 then [DigitChar(n)] else Digits(n / 10) + [DigitChar(n % 10)]
  }

  /** `str(n)` for a Python int. */
  function DecimalString(n: int): (s: string)
    ensures s != []
    ensures n >= 0 ==> AllDigits(s)
    ensures n < 0 ==> s[0] == '-' && AllDigits(s[1..])
  {
    if n >= 0 then Digits(n) else "-" + Digits(-n)
  }

  /** The number a digit string denotes. */
  function DigitsValue(s: string): nat
    requires AllDigits(s)
  {
    if s == [] then 0 else DigitsValue(s[..|s| - 1]) * 10 + (s[|s| - 1] as int - 48)
  }

  /** The text `int()` reads: an optional sign, then one or more ASCII digits. */
  predicate IntegerText(s: string) {
    var digits := if s != [] && (s[0] == '-' || s[0] == '+') then s[1..] else s;
    digits != [] && AllDigits(digits)
  }

  /**
   * The value of a non-empty run of digits, read one digit at a time; None
   * when the run is empty or holds a character that is not a digit.
   */
  function ParseDigits(s: string): Option<nat>
    decreases |s|
  {
    if s == [] || !IsDigit(s[|s| - 1]) then None
    else if |s| == 1 then Some(s[0] as int - 48)
    else
      match ParseDigits(s[..|s| - 1])
      case None => None
      case Some(v) => Some(v * 10 + (s[|s| - 1] as int - 48))
  }

  /** Reading digits succeeds exactly on a non-empty run of digits, and gives the number it denotes. */
  lemma {:induction false} ParseDigitsMeaning(s: string)
    ensures ParseDigits(s).Some? <==> s != [] && AllDigits(s)
    ensures ParseDigits(s).Some? ==> ParseDigits(s).value == DigitsValue(s)
  {
    if s != [] {
      var init := s[..|s| - 1];
      ParseDigitsMeaning(init);
      assert forall i :: 0 <= i < |init| ==> init[i] == s[i];
      if |s| == 1 {
        assert init == [];
      }
    }
  }

  /**
   * `int(s)` on a text cell: an optional sign followed by one or more ASCII
   * digits; anything else is None (Python raises ValueError).
   */
  function ParseInt(s: string): Option<int> {
    if s != [] && (s[0] == '-' || s[0] == '+') then
      match ParseDigits(s[1..])
      case None => None
      case Some(d) =>
        var v: int := d;
        Some(if s[0] == '-' then -v else v)
    else
      match ParseDigits(s)
      case None => None
      case Some(v) => Some(v)
  }

  /**
   * The conversion succeeds exactly on integer text; a negative result
   * needs a leading '-', and a leading '-' never gives a positive result.
   */
  lemma ParseIntMeaning(s: string)
    ensures ParseInt(s).Some? <==> IntegerText(s)
    ensures ParseInt(s).Some? && ParseInt(s).value < 0 ==> s[0] == '-'
    ensures ParseInt(s).Some? && s[0] == '-' ==> ParseInt(s).value <= 0
  {
    if s != [] && (s[0] == '-' || s[0] == '+') {
      ParseDigitsMeaning(s[1..]);
    } else {
      ParseDigitsMeaning(s);
    }
  }



  lemma {:induction false} DigitsValueOfDigits(n: nat)
    ensures DigitsValue(Digits(n)) == n
  {
    if n >= 10 {
      DigitsValueOfDigits(n / 10);
      var s := Digits(n);
      assert s[..|s| - 1] == Digits(n / 10);
    }
  }

  /** `int(str(n)) == n`: the decimal form of every integer parses back to it. */
  lemma ParseDecimalString(n: int)
    ensures ParseInt(DecimalString(n)) == Some(n)
  {
    if n >= 0 {
      DigitsValueOfDigits(n);
      ParseDigitsMeaning(Digits(n));
      assert DecimalString(n)[0] != '-' && DecimalString(n)[0] != '+' by {
        assert IsDigit(DecimalString(n)[0]);
      }
    } else {
      DigitsValueOfDigits(-n);
      assert DecimalString(n)[1..] == Digits(-n);
      ParseDigitsMeaning(Digits(-n));
    }
  }


  /** `str` is one-to-one on integers. */
  lemma DecimalStringInjective(a: int, b: int)
    requires DecimalString(a) == DecimalString(b)
    ensures a == b
  {
    ParseDecimalString(a);
    ParseDecimalString(b);
  }

  /** `"\n".join(parts)`. */
  function JoinLines(parts: seq<string>): string {
    if parts == [] then ""
    else if |parts| == 1 then parts[0]
    else JoinLines(parts[..|parts| - 1]) + "\n" + parts[|parts| - 1]
  }

  /** `s.split("\n")`: the pieces between the '\n's, in order. */
  function SplitLines(s: string): (parts: seq<string>)
    ensures parts != []
    decreases |s|
  {
    match LastIndexOf(s, '\n')
    case None => [s]
    case Some(k) => SplitLines(s[..k]) + [s[k + 1..]]
  }

  /**
   * Lines joined with "\n" split back into the same lines, provided no
   * line holds a '\n' itself: the join loses and repeats nothing and keeps
   * the order.
   */
  lemma {:induction false} SplitJoinLines(parts: seq<string>)
    requires parts != []
    requires forall i :: 0 <= i < |parts| ==> '\n' !in parts[i]
    ensures SplitLines(JoinLines(parts)) == parts
  {
    if |parts| == 1 {
      assert LastIndexOf(parts[0], '\n').None?;
    } else {
      var n := |parts| - 1;
      var a := JoinLines(parts[..n]);
      var s := a + "\n" + parts[n];
      LastIndexOfJoin(a, '\n', parts[n]);
      assert s[..|a|] == a;
      assert s[|a| + 1..] == parts[n];
      SplitJoinLines(parts[..n]);
      assert parts == parts[..n] + [parts[n]];
    }
  }
}
