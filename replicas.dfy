/**
 The quorum policy of `Replicas.java`: the immutable pair (ack, from), the
 parser of the `replicas=ack/from` query parameter and the default quorum for
 a cluster of a given size.
 */
module Quorum {
  import opened Wrappers
  import opened JavaLang

  /** `ack`: successful replica answers required; `from`: replicas contacted. */
  datatype Replicas = Replicas(ack: Int32, from: Int32)
  {
    /** The quorum invariant: at least one answer is required, and no more than are asked for. */
    predicate Valid()
    {
      1 <= ack <= from
    }
  }

  /**
   `Replicas.fromQuery`: splits the query on `/`, parses the first two pieces
   as Java `int`s and accepts the pair only when `1 <= ack <= from`. Every
   failure (too few pieces, a piece that is not a numeral, the range check)
   is the `IllegalArgumentException` of the source, here None. Pieces after
   the second are ignored, as `split` hands them back unread.
   */
  function FromQuery(query: string): (r: Option<Replicas>)
    ensures r.Some? ==> r.value.Valid()
  {
    var split := Split(query, '/');
    if |split| < 2 then None
    else
      match (ParseInt(split[0]), ParseInt(split[1]))
      case (Some(ack), Some(from)) =>
        if ack > from || ack < 1 then None else Some(Replicas(ack, from))
      case _ => None
  }

  /**
   `Replicas.defaultForCount`: `ack = count / 2 + 1` with Java's division,
   `from = count`. For a non-empty cluster this is the smallest strict
   majority of all nodes.
   */
  function DefaultForCount(count: Int32): (r: Replicas)
    ensures r.from == count
    ensures count >= 0 ==> 2 * r.ack > count && 2 * (r.ack - 1) <= count
    ensures count >= 1 ==> r.Valid()
  {
    Replicas(Quot(count, 2) + 1, count)
  }

  /** `"a/b"` written by `Integer.toString`, with `1 <= a <= b`, parses back to exactly (a, b). */
  lemma FromQueryRoundTrip(a: Int32, b: Int32)
    requires 1 <= a <= b
    ensures FromQuery(DecimalString(a) + "/" + DecimalString(b)) == Some(Replicas(a, b))
  {
    ParseIntString(a);
    ParseIntString(b);
    FromQueryAccepts(DecimalString(a), DecimalString(b), a, b);
  }

  /** Any two numerals the parser reads as `1 <= a <= b`, joined by `/`, give (a, b). */
  lemma FromQueryAccepts(sa: string, sb: string, a: Int32, b: Int32)
    requires '/' !in sa && '/' !in sb
    requires ParseInt(sa) == Some(a) && ParseInt(sb) == Some(b)
    requires 1 <= a <= b
    ensures FromQuery(sa + "/" + sb) == Some(Replicas(a, b))
  {
    SplitTwo(sa, sb, '/');
  }

  /** The range check: any two numerals read as `ack > from`, or as `ack < 1`, are refused. */
  lemma FromQueryRejectsRange(sa: string, sb: string, a: Int32, b: Int32)
    requires '/' !in sa && '/' !in sb
    requires ParseInt(sa) == Some(a) && ParseInt(sb) == Some(b)
    requires a > b || a < 1
    ensures FromQuery(sa + "/" + sb).None?
  {
    assert sb != "";
    SplitTwo(sa, sb, '/');
  }

  /** A query without `/` has no second half and is refused. */
  lemma FromQueryRejectsSingle(query: string)
    requires '/' !in query
    ensures FromQuery(query).None?
  {
  }

  /** A half that is not a Java `int` numeral (or is missing) makes the query invalid. */
  lemma FromQueryRejectsBadHalf(sa: string, sb: string)
    requires '/' !in sa && '/' !in sb
    requires ParseInt(sa).None? || ParseInt(sb).None?
    ensures FromQuery(sa + "/" + sb).None?
  {
    if sb == "" {
      assert sa + "/" + sb == sa + ['/'];
      SplitTrailingSeparator(sa, '/');
    } else {
      SplitTwo(sa, sb, '/');
    }
  }

  /** Text after a second `/` is never looked at: `"a/b/anything"` means the same as `"a/b"`. */
  lemma FromQueryIgnoresTrailing(sa: string, sb: string, rest: string)
    requires '/' !in sa && '/' !in sb && sb != ""
    ensures FromQuery(sa + "/" + sb + "/" + rest) == FromQuery(sa + "/" + sb)
  {
    SplitThree(sa, sb, rest, '/');
    SplitTwo(sa, sb, '/');
    var parts := Split(sa + "/" + sb + "/" + rest, '/');
    assert parts[0] == sa && parts[1] == sb by { assert parts[..2] == [sa, sb]; }
  }

  /** An empty piece between two separators is not a numeral: `"a//rest"` is refused, as `"a/"` is. */
  lemma FromQueryRejectsEmptyMiddle(sa: string, rest: string)
    requires '/' !in sa
    ensures FromQuery(sa + "/" + "/" + rest).None?
  {
    var s := sa + "/" + "/" + rest;
    assert s == sa + ['/'] + ("/" + rest);
    SplitAllAt(sa, "/" + rest, '/');
    assert "/" + rest == "" + ['/'] + rest;
    SplitAllAt("", rest, '/');
    var all := SplitAll(s, '/');
    assert all[1] == "";
    assert '/' in s by { assert s[|sa|] == '/'; }
    var parts := Split(s, '/');
    if |parts| >= 2 {
      assert parts[1] == "";
      assert ParseInt(parts[1]).None?;
    }
  }

  /** `3/5` is accepted as (3, 5); `5/3` and `0/2` fail the range check. */
  lemma FromQueryNumericExamples()
    ensures FromQuery("3/5") == Some(Replicas(3, 5))
    ensures FromQuery("5/3").None?
    ensures FromQuery("0/2").None?
  {
    assert DecimalString(3) == "3" && DecimalString(5) == "5";
    assert DecimalString(0) == "0" && DecimalString(2) == "2";
    assert DecimalString(3) + "/" + DecimalString(5) == "3/5";
    assert DecimalString(5) + "/" + DecimalString(3) == "5/3";
    assert DecimalString(0) + "/" + DecimalString(2) == "0/2";
    FromQueryRoundTrip(3, 5);
    ParseIntString(5);
    ParseIntString(3);
    ParseIntString(0);
    ParseIntString(2);
    FromQueryRejectsRange("5", "3", 5, 3);
    FromQueryRejectsRange("0", "2", 0, 2);
  }

  /** `x/y` has no numerals, `3` has no second half. */
  lemma FromQueryMalformedExamples()
    ensures FromQuery("x/y").None?
    ensures FromQuery("3").None?
  {
    assert ParseInt("x").None? by { assert !IsDigit("x"[0]); }
    assert "x" + "/" + "y" == "x/y";
    FromQueryRejectsBadHalf("x", "y");
    FromQueryRejectsSingle("3");
  }
}
