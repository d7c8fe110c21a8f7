/**
 The parts of the Java class library whose exact behaviour the quorum policy
 and the coordinator depend on: `Integer.parseInt`, `Long.parseLong`,
 `Long.toString`, `String.split` with a one-character separator and the
 truncating integer division of `int`.
 */
module JavaLang {
  import opened Wrappers

  /** The value range of a Java `int`. */
  type Int32 = x: int | -0x8000_0000 <= x < 0x8000_0000

  /** The value range of a Java `long`. */
  type Long = x: int | -0x8000_0000_0000_0000 <= x < 0x8000_0000_0000_0000

  function Abs(x: int): nat
  {
    if x < 0 then -x else x
  }

  /**
   Java's `a / b` on integers: rounds toward zero (Dafny's `/` is Euclidean).
   The wrap of `Integer.MIN_VALUE / -1` back to `Integer.MIN_VALUE` is not
   modelled; the only division in the core divides a node count by 2.
   */
  function Quot(a: int, b: int): int
    requires b != 0
  {
    var m := Abs(a) / Abs(b);
    if (a < 0) != (b < 0) then -m else m
  }

  // ---------------------------------------------------------------------
  // Decimal numerals

  predicate IsDigit(c: char)
  {
    '0' <= c <= '9'
  }

  predicate AllDigits(s: string)
  {
    forall i :: 0 <= i < |s| ==> IsDigit(s[i])
  }

  /** The number a string of decimal digits denotes (leading zeros allowed). */
  function DigitsValue(s: string): nat
    requires AllDigits(s)
    decreases |s|
  {
    if s == [] then 0
    else
      assert IsDigit(s[|s| - 1]);
      var digit: int := s[|s| - 1] as int - '0' as int;
      DigitsValue(s[..|s| - 1]) * 10 + digit
  }

  /**
   `Integer.parseInt` / `Long.parseLong` over the value range [lo, hi]: an
   optional `-` or `+`, then one or more decimal digits, and the value must
   lie in the range; everything else throws `NumberFormatException` (None).
   */
  function ParseDecimal(s: string, lo: int, hi: int): (r: Option<int>)
    ensures r.Some? ==> lo <= r.value <= hi
    ensures r.Some? ==>
      && |s| >= 1
      && var digits := if s[0] == '-' || s[0] == '+' then s[1..] else s;
      && |digits| >= 1 && AllDigits(digits)
      && r.value == if s[0] == '-' then -(DigitsValue(digits) as int) else DigitsValue(digits)
    ensures |s| >= 1 ==>
      var digits := if s[0] == '-' || s[0] == '+' then s[1..] else s;
      |digits| >= 1 && AllDigits(digits) ==>
        var v: int := if s[0] == '-' then -(DigitsValue(digits) as int) else DigitsValue(digits);
        lo <= v <= hi ==> r == Some(v)
  {
    if |s| == 0 then None
    else
      var digits := if s[0] == '-' || s[0] == '+' then s[1..] else s;
      if |digits| == 0 || !AllDigits(digits) then None
      else
        var v: int := if s[0] == '-' then -(DigitsValue(digits) as int) else DigitsValue(digits);
        if lo <= v <= hi then Some(v) else None
  }

  function ParseInt(s: string): (r: Option<Int32>)
  {
    match ParseDecimal(s, -0x8000_0000, 0x7fff_ffff)
    case None => None
    case Some(v) => Some(v)
  }

  function ParseLong(s: string): (r: Option<Long>)
  {
    match ParseDecimal(s, -0x8000_0000_0000_0000, 0x7fff_ffff_ffff_ffff)
    case None => None
    case Some(v) => Some(v)
  }

  /** The shortest decimal numeral of `n`, as `Long.toString` prints a non-negative value. */
  function DigitString(n: nat): (s: string)
    ensures |s| >= 1 && AllDigits(s) && DigitsValue(s) == n
    ensures |s| > 1 ==> s[0] != '0'
  {
    if n < 10 then ['0' + n as char]
    else
      var prefix := DigitString(n / 10);
      var s := prefix + ['0' + (n % 10) as char];
      assert s[..|s| - 1] == prefix;
      s
  }

  /** `Long.toString` and `Integer.toString`: a minus sign for negative values. */
  function DecimalString(v: int): (s: string)
    ensures |s| >= 1
    ensures forall i :: 0 <= i < |s| ==> s[i] == '-' || IsDigit(s[i])
  {
    if v < 0 then "-" + DigitString(-v) else DigitString(v)
  }

  /** Parsing what `DecimalString` prints gives the value back, for every value in range. */
  lemma ParseDecimalString(v: int, lo: int, hi: int)
    requires lo <= v <= hi
    ensures ParseDecimal(DecimalString(v), lo, hi) == Some(v)
  {
    var s := DecimalString(v);
    if v < 0 {
      assert s[1..] == DigitString(-v);
    } else {
      assert !(s[0] == '-' || s[0] == '+') by { assert IsDigit(s[0]); }
    }
  }

  lemma ParseLongString(v: Long)
    ensures ParseLong(DecimalString(v)) == Some(v)
  {
    ParseDecimalString(v, -0x8000_0000_0000_0000, 0x7fff_ffff_ffff_ffff);
  }

  lemma ParseIntString(v: Int32)
    ensures ParseInt(DecimalString(v)) == Some(v)
  {
    ParseDecimalString(v, -0x8000_0000, 0x7fff_ffff);
  }

  // ---------------------------------------------------------------------
  // String.split with a single-character separator

  /** Concatenates the parts with the separator between neighbours (Java's `String.join`). */
  function Join(parts: seq<string>, sep: char): string
    requires |parts| >= 1
  {
    if |parts| == 1 then parts[0] else parts[0] + [sep] + Join(parts[1..], sep)
  }

  /** Every piece of `s` between separators, empty pieces included. */
  function SplitAll(s: string, sep: char): (parts: seq<string>)
    ensures |parts| >= 1
    ensures forall i :: 0 <= i < |parts| ==> sep !in parts[i]
    ensures Join(parts, sep) == s
    decreases |s|
  {
    if |s| == 0 then [""]
    else
      var rest := SplitAll(s[1..], sep);
      if s[0] == sep then
        assert Join([""] + rest, sep) == [sep] + s[1..] by {
          assert ([""] + rest)[1..] == rest;
        }
        [""] + rest
      else
        var parts := [[s[0]] + rest[0]] + rest[1..];
        assert Join(parts, sep) == s by {
          if |rest| > 1 {
            assert parts[1..] == rest[1..];
          }
        }
        parts
  }

  /** Removes the empty strings at the end, as `split` does with limit 0. */
  function DropTrailingEmpty(parts: seq<string>): (r: seq<string>)
    ensures r <= parts
    ensures |r| > 0 ==> r[|r| - 1] != ""
    ensures forall i :: |r| <= i < |parts| ==> parts[i] == ""
  {
    if |parts| > 0 && parts[|parts| - 1] == "" then DropTrailingEmpty(parts[..|parts| - 1])
    else parts
  }

  /**
   `s.split(String.valueOf(sep))` for a separator that is not a regular
   expression metacharacter: a string without the separator is returned
   whole (even when it is empty), otherwise the pieces between separators
   with the trailing empty pieces removed.
   */
  function Split(s: string, sep: char): (parts: seq<string>)
    ensures forall i :: 0 <= i < |parts| ==> sep !in parts[i]
    ensures sep !in s ==> parts == [s]
    ensures sep in s ==> parts <= SplitAll(s, sep)
    ensures sep in s && |parts| > 0 ==> parts[|parts| - 1] != ""
    ensures sep in s ==> forall i :: |parts| <= i < |SplitAll(s, sep)| ==> SplitAll(s, sep)[i] == ""
  {
    if sep !in s then [s] else DropTrailingEmpty(SplitAll(s, sep))
  }

  /** Splitting on the first separator: the part before it, then the pieces of the rest. */
  lemma {:induction false} SplitAllAt(a: string, b: string, sep: char)
    requires sep !in a
    ensures SplitAll(a + [sep] + b, sep) == [a] + SplitAll(b, sep)
    decreases |a|
  {
    var s := a + [sep] + b;
    if |a| == 0 {
      assert s[1..] == b;
    } else {
      assert s[1..] == a[1..] + [sep] + b;
      SplitAllAt(a[1..], b, sep);
      assert [a[0]] + a[1..] == a;
    }
  }

  /** Two separator-free halves, the second non-empty, split back into exactly those halves. */
  lemma SplitTwo(a: string, b: string, sep: char)
    requires sep !in a && sep !in b && b != ""
    ensures Split(a + [sep] + b, sep) == [a, b]
  {
    SplitAllAt(a, b, sep);
    assert sep in a + [sep] + b by { assert (a + [sep] + b)[|a|] == sep; }
  }

  /** The first two pieces survive whatever follows a second separator, once the second piece is non-empty. */
  lemma SplitThree(a: string, b: string, rest: string, sep: char)
    requires sep !in a && sep !in b && b != ""
    ensures |Split(a + [sep] + b + [sep] + rest, sep)| >= 2
    ensures Split(a + [sep] + b + [sep] + rest, sep)[..2] == [a, b]
  {
    var s := a + [sep] + b + [sep] + rest;
    assert s == a + [sep] + (b + [sep] + rest);
    SplitAllAt(a, b + [sep] + rest, sep);
    SplitAllAt(b, rest, sep);
    var all := SplitAll(s, sep);
    assert all[..2] == [a, b];
    assert sep in s by { assert s[|a|] == sep; }
  }

  /** An empty second half: `"a/"` splits into `[a]` and `"/"` into nothing at all. */
  lemma SplitTrailingSeparator(a: string, sep: char)
    requires sep !in a
    ensures Split(a + [sep], sep) == if a == "" then [] else [a]
  {
    SplitAllAt(a, "", sep);
    assert a + [sep] + "" == a + [sep];
    assert sep in a + [sep] by { assert (a + [sep])[|a|] == sep; }
    var all := SplitAll(a + [sep], sep);
    assert all == [a, ""];
    assert DropTrailingEmpty(all) == DropTrailingEmpty([a]) by { assert all[..1] == [a]; }
    if a == "" {
      assert [a][..0] == [];
    }
  }
}
