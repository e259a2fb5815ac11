/** Text helpers shared by the facets, the ranking order and the CSV export:
    the character order on strings, Array.prototype.join / String.prototype.split
    on one separator, and the decimal text of an integer (Number.prototype.toString). */
module Strings {

  /** Lexicographic order on strings, character by character. It stands for
      the default order of Array.prototype.sort and for localeCompare. */
  predicate Le(a: string, b: string)
  {
    |a| == 0 || (|b| > 0 && (a[0] < b[0] || (a[0] == b[0] && Le(a[1..], b[1..]))))
  }

  lemma {:induction false} LeReflexive(a: string)
    ensures Le(a, a)
  {
    if |a| > 0 {
      LeReflexive(a[1..]);
    }
  }

  lemma {:induction false} LeTotal(a: string, b: string)
    ensures Le(a, b) || Le(b, a)
  {
    if |a| > 0 && |b| > 0 && a[0] == b[0] {
      LeTotal(a[1..], b[1..]);
    }
  }

  lemma {:induction false} LeAntisymmetric(a: string, b: string)
    requires Le(a, b) && Le(b, a)
    ensures a == b
  {
    if |a| > 0 && |b| > 0 {
      LeAntisymmetric(a[1..], b[1..]);
      assert a == [a[0]] + a[1..] && b == [b[0]] + b[1..];
    }
  }

  lemma {:induction false} LeTransitive(a: string, b: string, c: string)
    requires Le(a, b) && Le(b, c)
    ensures Le(a, c)
  {
    if |a| > 0 && |b| > 0 && |c| > 0 && a[0] == b[0] && b[0] == c[0] {
      LeTransitive(a[1..], b[1..], c[1..]);
    }
  }

  /** Array.prototype.join: the parts with sep between neighbours; "" for no parts. */
  function Join(parts: seq<string>, sep: string): string
  {
    if |parts| == 0 then ""
    else if |parts| == 1 then parts[0]
    else parts[0] + sep + Join(parts[1..], sep)
  }

  /** Join ends with the separator followed by the last part. */
  lemma {:induction false} JoinEndsWithLast(parts: seq<string>, sep: string)
    requires |parts| > 1
    ensures var r := Join(parts, sep); var tail := sep + parts[|parts| - 1];
      |tail| <= |r| && r[|r| - |tail|..] == tail
  {
    var r := Join(parts, sep);
    var tail := sep + parts[|parts| - 1];
    if |parts| == 2 {
      assert Join(parts[1..], sep) == parts[1];
      assert r == parts[0] + tail;
    } else {
      JoinEndsWithLast(parts[1..], sep);
      var rest := Join(parts[1..], sep);
      assert r == (parts[0] + sep) + rest;
      assert r[|r| - |tail|..] == rest[|rest| - |tail|..];
    }
  }

  /** A join contains a character only if a part or the separator does. */
  lemma {:induction false} JoinHasNo(parts: seq<string>, sep: string, c: char)
    requires c !in sep
    requires forall k :: 0 <= k < |parts| ==> c !in parts[k]
    ensures c !in Join(parts, sep)
  {
    if |parts| > 1 {
      JoinHasNo(parts[1..], sep, c);
    }
  }

  /** A part that itself holds the separator reads, once joined, as two parts. */
  lemma {:induction false} JoinPartWithSeparator(xs: seq<string>, a: string, b: string, ys: seq<string>, sep: string)
    ensures Join(xs + [a + sep + b] + ys, sep) == Join(xs + [a, b] + ys, sep)
  {
    if xs == [] {
      if ys != [] {
        assert ([a, b] + ys)[1..] == [b] + ys;
        assert ([b] + ys)[1..] == ys;
        assert ([a + sep + b] + ys)[1..] == ys;
      }
    } else {
      JoinPartWithSeparator(xs[1..], a, b, ys, sep);
      assert (xs + [a + sep + b] + ys)[1..] == xs[1..] + [a + sep + b] + ys;
      assert (xs + [a, b] + ys)[1..] == xs[1..] + [a, b] + ys;
    }
  }

  /** A part that is itself a join on the separator reads, once joined, as its own parts. */
  lemma {:induction false} JoinFlatten(xs: seq<string>, g: seq<string>, ys: seq<string>, sep: string)
    requires |g| > 0
    ensures Join(xs + [Join(g, sep)] + ys, sep) == Join(xs + g + ys, sep)
    decreases |g|
  {
    if |g| == 1 {
      assert g == [g[0]];
    } else {
      var rest := Join(g[1..], sep);
      JoinPartWithSeparator(xs, g[0], rest, ys, sep);
      assert xs + [g[0], rest] + ys == (xs + [g[0]]) + [rest] + ys;
      JoinFlatten(xs + [g[0]], g[1..], ys, sep);
      assert (xs + [g[0]]) + g[1..] + ys == xs + g + ys by {
        assert [g[0]] + g[1..] == g;
      }
    }
  }

  /** A join of more than one part starts with the first part and the separator. */
  lemma JoinStartsWithFirst(parts: seq<string>, sep: string)
    requires |parts| > 1
    ensures var head := parts[0] + sep; var r := Join(parts, sep);
      |head| <= |r| && r[..|head|] == head
  {
  }

  /** String.prototype.split on one character: always at least one piece. */
  function Split(s: string, c: char): (pieces: seq<string>)
    ensures |pieces| > 0
  {
    if |s| == 0 then [""]
    else if s[0] == c then [""] + Split(s[1..], c)
    else var rest := Split(s[1..], c); [[s[0]] + rest[0]] + rest[1..]
  }

  lemma {:induction false} SplitNoSeparator(s: string, c: char)
    requires c !in s
    ensures Split(s, c) == [s]
  {
    if |s| > 0 {
      assert c !in s[1..] by { assert forall k :: 0 <= k < |s| - 1 ==> s[1..][k] == s[k + 1]; }
      SplitNoSeparator(s[1..], c);
      assert [s[0]] + s[1..] == s;
    }
  }

  lemma {:induction false} SplitAtFirst(a: string, c: char, b: string)
    requires c !in a
    ensures Split(a + [c] + b, c) == [a] + Split(b, c)
  {
    var s := a + [c] + b;
    if |a| == 0 {
      assert s[0] == c && s[1..] == b;
    } else {
      assert s[0] == a[0] && s[1..] == a[1..] + [c] + b;
      assert c !in a[1..] by { assert forall k :: 0 <= k < |a| - 1 ==> a[1..][k] == a[k + 1]; }
      SplitAtFirst(a[1..], c, b);
      assert [a[0]] + a[1..] == a;
    }
  }

  /** Splitting a join on a separator that no part contains gives the parts back. */
  lemma {:induction false} SplitJoin(parts: seq<string>, c: char)
    requires |parts| > 0
    requires forall k :: 0 <= k < |parts| ==> c !in parts[k]
    ensures Split(Join(parts, [c]), c) == parts
  {
    if |parts| == 1 {
      SplitNoSeparator(parts[0], c);
    } else {
      SplitJoin(parts[1..], c);
      SplitAtFirst(parts[0], c, Join(parts[1..], [c]));
      assert [parts[0]] + parts[1..] == parts;
    }
  }

  predicate IsDigit(ch: char)
  {
    '0' <= ch <= '9'
  }

  function DigitChar(d: nat): (ch: char)
    requires d < 10
    ensures IsDigit(ch) && ch as int - '0' as int == d
  {
    ('0' as int + d) as char
  }

  /** The decimal text of a natural number, without leading zeros. */
  function NatToString(n: nat): (s: string)
    ensures |s| > 0 && (forall k :: 0 <= k < |s| ==> IsDigit(s[k]))
    ensures |s| > 1 ==> s[0] != '0'
    decreases n
  {
    if n < 10 then [DigitChar(n)] else NatToString(n / 10) + [DigitChar(n % 10)]
  }

  /** Number.prototype.toString on an integer: a minus sign, then the digits. */
  function IntToString(i: int): (s: string)
    ensures |s| > 0
    ensures i >= 0 <==> s[0] != '-'
  {
    if i < 0 then "-" + NatToString(-i) else NatToString(i)
  }

  /** The value of a string of decimal digits: the inverse of NatToString. */
  function ParseNat(s: string): nat
    requires forall k :: 0 <= k < |s| ==> IsDigit(s[k])
  {
    if |s| == 0 then 0
    else
      var last := s[|s| - 1];
      assert IsDigit(last);
      10 * ParseNat(s[..|s| - 1]) + (last as int - '0' as int)
  }

  lemma {:induction false} ParseNatToString(n: nat)
    ensures ParseNat(NatToString(n)) == n
    decreases n
  {
    if n >= 10 {
      ParseNatToString(n / 10);
      var s := NatToString(n);
      assert s[..|s| - 1] == NatToString(n / 10);
    }
  }

  /** Decimal text never contains a separator character such as ',', ';' or a line break. */
  lemma NatToStringHasNo(n: nat, c: char)
    requires !IsDigit(c)
    ensures c !in NatToString(n)
  {
  }

  lemma IntToStringHasNo(i: int, c: char)
    requires !IsDigit(c) && c != '-'
    ensures c !in IntToString(i)
  {
    if i < 0 {
      NatToStringHasNo(-i, c);
    } else {
      NatToStringHasNo(i, c);
    }
  }
}
