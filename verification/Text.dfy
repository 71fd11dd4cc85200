/** Decimal numbers, sorted string lists and joined text, as the tokens and the blame parser need them. */
module Text {
  import opened Wrappers

  // ---------------------------------------------------------------------------
  // Decimal numbers
  // ---------------------------------------------------------------------------

  predicate IsDigit(c: char) {
    '0' <= c <= '9'
  }

  function Decimal(n: nat): (s: string)
    ensures s != "" && forall i :: 0 <= i < |s| ==> IsDigit(s[i])
  {
    var digit := ('0' as int + n % 10) as char;
    if n < 10 then [digit] else Decimal(n / 10) + [digit]
  }

  /** The number a non-empty run of digits denotes. */
  function Digits(s: string): Option<nat> {
    if s == "" || !IsDigit(s[|s| - 1]) then None
    else
      var digit := s[|s| - 1] as int - '0' as int;
      if |s| == 1 then Some(digit)
      else
        match Digits(s[..|s| - 1])
        case None => None
        case Some(n) => Some(10 * n + digit)
  }

  lemma {:induction false} DigitsOfDecimal(n: nat)
    ensures Digits(Decimal(n)) == Some(n)
  {
    if n >= 10 {
      DigitsOfDecimal(n / 10);
      assert Decimal(n)[..|Decimal(n)| - 1] == Decimal(n / 10);
    }
  }

  /** Only runs of the ten digits denote a number, and every one of them does. */
  lemma {:induction false} DigitsIff(s: string)
    ensures Digits(s).Some? <==> s != "" && forall i :: 0 <= i < |s| ==> s[i] in "0123456789"
  {
    forall c: char
      ensures IsDigit(c) <==> c in "0123456789"
    {
      DigitIff(c);
    }
    if |s| > 1 {
      DigitsIff(s[..|s| - 1]);
      assert s == s[..|s| - 1] + [s[|s| - 1]];
    }
  }

  lemma DigitIff(c: char)
    ensures IsDigit(c) <==> c in "0123456789"
  {
    if IsDigit(c) {
      assert "0123456789"[c as int - '0' as int] == c;
    }
  }

  /** Each further digit counts as its place in the list of digits, after ten times what came before. */
  lemma DigitsGrow(s: string, d: nat)
    requires d < 10
    ensures s == "" ==> Digits(s + ["0123456789"[d]]) == Some(d)
    ensures Digits(s).Some? ==> Digits(s + ["0123456789"[d]]) == Some(10 * Digits(s).value + d)
  {
    DigitAt(d);
    DigitsSnoc(s, "0123456789"[d]);
  }

  lemma DigitAt(d: nat)
    requires d < 10
    ensures IsDigit("0123456789"[d]) && "0123456789"[d] as int == '0' as int + d
  {
  }

  lemma DigitsSnoc(s: string, c: char)
    requires IsDigit(c)
    ensures s == "" ==> Digits(s + [c]) == Some(c as int - '0' as int)
    ensures Digits(s).Some? ==> Digits(s + [c]) == Some(10 * Digits(s).value + (c as int - '0' as int))
  {
    assert (s + [c])[..|s|] == s && (s + [c])[|s|] == c;
  }

  // ---------------------------------------------------------------------------
  // Sorting
  // ---------------------------------------------------------------------------

  /** Code point order, shorter strings first. */
  predicate Leq(a: string, b: string) {
    a == "" || (b != "" && (a[0] < b[0] || (a[0] == b[0] && Leq(a[1..], b[1..]))))
  }

  lemma {:induction false} LeqTotal(a: string, b: string)
    ensures Leq(a, b) || Leq(b, a)
    ensures Leq(a, b) && Leq(b, a) ==> a == b
  {
    if a != "" && b != "" {
      LeqTotal(a[1..], b[1..]);
      if a[0] == b[0] && a[1..] == b[1..] {
        assert a == [a[0]] + a[1..] == b;
      }
    }
  }

  lemma {:induction false} LeqTransitive(a: string, b: string, c: string)
    requires Leq(a, b) && Leq(b, c)
    ensures Leq(a, c)
  {
    if a != "" && a[0] == b[0] == c[0] {
      LeqTransitive(a[1..], b[1..], c[1..]);
    }
  }

  /** The first place where they differ decides; a text comes before its extensions. */
  lemma {:induction false} LeqIff(a: string, b: string)
    ensures Leq(a, b)
            <==> (|| a <= b
                  || exists i :: 0 <= i < |a| && i < |b| && a[..i] == b[..i] && a[i] < b[i])
  {
    if a != "" && b != "" {
      LeqIff(a[1..], b[1..]);
      if a[0] == b[0] {
        assert a <= b <==> a[1..] <= b[1..] by {
          assert a == [a[0]] + a[1..] && b == [b[0]] + b[1..];
        }
        FirstDifference(a, b);
      } else {
        assert a[0] < b[0] ==> a[..0] == b[..0];
      }
    }
  }

  lemma FirstDifference(a: string, b: string)
    requires a != "" && b != "" && a[0] == b[0]
    ensures (exists i :: 0 <= i < |a| && i < |b| && a[..i] == b[..i] && a[i] < b[i])
            <==> (exists i :: 0 <= i < |a[1..]| && i < |b[1..]| && a[1..][..i] == b[1..][..i] && a[1..][i] < b[1..][i])
  {
    if i :| 0 <= i < |a| && i < |b| && a[..i] == b[..i] && a[i] < b[i] {
      assert a[1..][..i - 1] == a[..i][1..] == b[..i][1..] == b[1..][..i - 1];
      assert a[1..][i - 1] < b[1..][i - 1];
    }
    if i :| 0 <= i < |a[1..]| && i < |b[1..]| && a[1..][..i] == b[1..][..i] && a[1..][i] < b[1..][i] {
      assert a[..i + 1] == [a[0]] + a[1..][..i] == [b[0]] + b[1..][..i] == b[..i + 1];
      assert a[i + 1] < b[i + 1];
    }
  }

  function Insert(x: string, xs: seq<string>): seq<string> {
    if xs == [] then [x]
    else if Leq(x, xs[0]) then [x] + xs
    else [xs[0]] + Insert(x, xs[1..])
  }

  function Sort(xs: seq<string>): seq<string> {
    if xs == [] then [] else Insert(xs[0], Sort(xs[1..]))
  }

  predicate Sorted(xs: seq<string>) {
    |xs| <= 1 || (Leq(xs[0], xs[1]) && Sorted(xs[1..]))
  }

  lemma {:induction false} InsertKeeps(x: string, xs: seq<string>)
    ensures multiset(Insert(x, xs)) == multiset(xs) + multiset{x}
    ensures Sorted(xs) ==> Sorted(Insert(x, xs))
    ensures Insert(x, xs)[0] == if xs == [] || Leq(x, xs[0]) then x else xs[0]
  {
    if xs != [] {
      assert xs == [xs[0]] + xs[1..];
      if Leq(x, xs[0]) {
        assert ([x] + xs)[1..] == xs;
      } else {
        LeqTotal(x, xs[0]);
        InsertKeeps(x, xs[1..]);
        assert ([xs[0]] + Insert(x, xs[1..]))[1..] == Insert(x, xs[1..]);
      }
    }
  }

  /** Sorting yields an ordered rearrangement. */
  lemma {:induction false} SortSorts(xs: seq<string>)
    ensures Sorted(Sort(xs)) && multiset(Sort(xs)) == multiset(xs)
  {
    if xs != [] {
      SortSorts(xs[1..]);
      InsertKeeps(xs[0], Sort(xs[1..]));
      assert xs == [xs[0]] + xs[1..];
    }
  }

  lemma {:induction false} HeadIsLeast(xs: seq<string>, x: string)
    requires Sorted(xs) && x in xs
    ensures Leq(xs[0], x)
  {
    LeqTotal(x, x);
    if x != xs[0] {
      assert xs == [xs[0]] + xs[1..];
      HeadIsLeast(xs[1..], x);
      LeqTransitive(xs[0], xs[1], x);
    }
  }

  /** There is only one ordered rearrangement. */
  lemma {:induction false} SortedIsUnique(xs: seq<string>, ys: seq<string>)
    requires Sorted(xs) && Sorted(ys) && multiset(xs) == multiset(ys)
    ensures xs == ys
  {
    assert |multiset(xs)| == |xs| && |multiset(ys)| == |ys|;
    if xs != [] {
      SameHead(xs, ys);
      var x := xs[0];
      assert xs == [x] + xs[1..] && ys == [x] + ys[1..];
      assert multiset(xs[1..]) == multiset(xs) - multiset{x} == multiset(ys[1..]);
      SortedIsUnique(xs[1..], ys[1..]);
    }
  }

  lemma SameHead(xs: seq<string>, ys: seq<string>)
    requires Sorted(xs) && Sorted(ys) && multiset(xs) == multiset(ys) && xs != [] && ys != []
    ensures xs[0] == ys[0]
  {
    assert xs[0] in multiset(xs) && ys[0] in multiset(ys);
    HeadIsLeast(xs, ys[0]);
    HeadIsLeast(ys, xs[0]);
    LeqTotal(xs[0], ys[0]);
  }

  // ---------------------------------------------------------------------------
  // Joining
  // ---------------------------------------------------------------------------

  function Join(parts: seq<string>, separator: char): string {
    if parts == [] then ""
    else if |parts| == 1 then parts[0]
    else parts[0] + [separator] + Join(parts[1..], separator)
  }

  predicate Free(parts: seq<string>, c: char) {
    forall i :: 0 <= i < |parts| ==> c !in parts[i]
  }

  /** Where `c` first occurs, or the length of `s`. */
  function FirstIndex(s: string, c: char): (i: nat)
    ensures i <= |s| && c !in s[..i] && (i < |s| ==> s[i] == c)
  {
    if s == "" || s[0] == c then 0
    else
      var i := 1 + FirstIndex(s[1..], c);
      assert s[..i] == [s[0]] + s[1..][..i - 1];
      i
  }

  lemma {:induction false} FirstIndexAt(s: string, c: char, n: nat)
    requires n <= |s| && (n < |s| ==> s[n] == c)
    requires c !in s[..n]
    ensures FirstIndex(s, c) == n
  {
    if n > 0 {
      assert s[..n][0] == s[0];
      assert s[1..][..n - 1] == s[..n][1..];
      FirstIndexAt(s[1..], c, n - 1);
    }
  }

  /** The text up to the first separator is the first part. */
  lemma FirstPart(xs: seq<string>, c: char)
    requires xs != [] && Free(xs, c)
    ensures var s := Join(xs, c);
            var n := FirstIndex(s, c);
            && n == |xs[0]| <= |s| && s[..n] == xs[0]
            && (|xs| == 1 <==> n == |s|)
            && (|xs| > 1 ==> s[n + 1..] == Join(xs[1..], c))
  {
    var s, n := Join(xs, c), |xs[0]|;
    assert s[..n] == xs[0];
    FirstIndexAt(s, c, n);
    if |xs| > 1 {
      assert s[n + 1..] == Join(xs[1..], c);
    }
  }

  /** Text whose parts are free of the separator splits in only one way. */
  lemma {:induction false} JoinIsInjective(xs: seq<string>, ys: seq<string>, c: char)
    requires xs != [] && ys != [] && Free(xs, c) && Free(ys, c)
    requires Join(xs, c) == Join(ys, c)
    ensures xs == ys
  {
    FirstPart(xs, c);
    FirstPart(ys, c);
    assert xs == [xs[0]] + xs[1..] && ys == [ys[0]] + ys[1..];
    if |xs| > 1 {
      JoinIsInjective(xs[1..], ys[1..], c);
    }
  }

  /** Text around the first occurrence of a character splits in only one way. */
  lemma SplitIsUnique(a: string, x: string, b: string, y: string, c: char)
    requires c !in a && c !in b
    requires a + [c] + x == b + [c] + y
    ensures a == b && x == y
  {
    var s := a + [c] + x;
    assert s[..|a|] == a && s[..|b|] == b;
    FirstIndexAt(s, c, |a|);
    FirstIndexAt(s, c, |b|);
    assert s[|a| + 1..] == x && s[|b| + 1..] == y;
  }
}
