/** The string operations the page relies on: lower-casing, substring search
    (`String.prototype.includes`), joining with a separator
    (`Array.prototype.join`) and the order the default `Array.prototype.sort`
    puts strings in. */
module Text {

  predicate IsUpper(c: char)
  {
    'A' <= c <= 'Z'
  }

  /** Lower-casing of one character, on the ASCII range. */
  function LowerChar(c: char): (r: char)
    ensures !IsUpper(r)
    ensures 'a' <= r <= 'z' <==> IsUpper(c) || 'a' <= c <= 'z'
  {
    if IsUpper(c) then (c as int - 'A' as int + 'a' as int) as char else c
  }

  /** `s.toLowerCase()`: every character lower-cased, nothing added or dropped. */
  function Lower(s: string): (r: string)
    ensures |r| == |s|
    ensures forall i :: 0 <= i < |s| ==> r[i] == LowerChar(s[i])
  {
    if s == [] then [] else [LowerChar(s[0])] + Lower(s[1..])
  }

  /** Lower-casing twice is lower-casing once. */
  lemma LowerIdempotent(s: string)
    ensures Lower(Lower(s)) == Lower(s)
  {
    assert forall i :: 0 <= i < |s| ==> Lower(Lower(s))[i] == Lower(s)[i];
  }

  /** `n` is a prefix of `h`. */
  predicate IsPrefix(n: string, h: string)
  {
    |n| <= |h| && h[..|n|] == n
  }

  /** `h.includes(n)`: `n` occurs somewhere in `h`, tried position by
      position from the left; the empty string occurs in every string. */
  predicate Includes(h: string, n: string)
    decreases |h|
  {
    IsPrefix(n, h) || (h != [] && Includes(h[1..], n))
  }

  /** `n` occurs in `h` starting at position `i`. */
  ghost predicate OccursAt(h: string, n: string, i: int)
  {
    0 <= i && i + |n| <= |h| && h[i..i + |n|] == n
  }

  /** Dropping the first character shifts every occurrence one place left. */
  lemma OccursShift(h: string, n: string, i: nat)
    requires h != []
    ensures OccursAt(h[1..], n, i) <==> OccursAt(h, n, i + 1)
  {
    if i + 1 + |n| <= |h| {
      assert h[1..][i..i + |n|] == h[i + 1..i + 1 + |n|];
    }
  }

  /** The left-to-right search agrees with the plain definition of an
      occurrence at some position. */
  lemma {:induction false} IncludesIff(h: string, n: string)
    ensures Includes(h, n) <==> exists i :: OccursAt(h, n, i)
    decreases |h|
  {
    if IsPrefix(n, h) {
      assert OccursAt(h, n, 0);
    } else if h == [] {
      assert forall i :: !OccursAt(h, n, i);
    } else {
      IncludesIff(h[1..], n);
      if Includes(h[1..], n) {
        var i :| OccursAt(h[1..], n, i);
        OccursShift(h, n, i);
      } else {
        forall i | OccursAt(h, n, i) ensures false {
          if i != 0 {
            OccursShift(h, n, i - 1);
          }
        }
      }
    }
  }

  /** An occurrence inside the middle piece of a concatenation is an
      occurrence in the whole. */
  lemma OccursInMiddle(a: string, b: string, c: string, n: string, i: int)
    requires OccursAt(b, n, i)
    ensures OccursAt(a + b + c, n, |a| + i)
  {
    assert (a + b + c)[|a| + i..|a| + i + |n|] == b[i..i + |n|];
  }

  /** An occurrence survives lower-casing of both sides. */
  lemma OccursLower(h: string, n: string, i: int)
    requires OccursAt(h, n, i)
    ensures OccursAt(Lower(h), Lower(n), i)
  {
    assert Lower(h)[i..i + |n|] == Lower(n);
  }

  /** `xs.join(sep)`. */
  function Join(xs: seq<string>, sep: string): string
  {
    if |xs| == 0 then ""
    else if |xs| == 1 then xs[0]
    else xs[0] + sep + Join(xs[1..], sep)
  }

  /** Every joined element occurs in the joined string. */
  lemma {:induction false} JoinContains(xs: seq<string>, sep: string, x: string)
    requires x in xs
    ensures exists i :: OccursAt(Join(xs, sep), x, i)
  {
    if |xs| == 1 {
      assert OccursAt(Join(xs, sep), x, 0);
    } else if x == xs[0] {
      assert Join(xs, sep) == x + (sep + Join(xs[1..], sep));
      assert OccursAt(Join(xs, sep), x, 0);
    } else {
      assert x in xs[1..];
      JoinContains(xs[1..], sep, x);
      var i :| OccursAt(Join(xs[1..], sep), x, i);
      OccursInMiddle(xs[0] + sep, Join(xs[1..], sep), "", x, i);
      assert xs[0] + sep + Join(xs[1..], sep) + "" == Join(xs, sep);
    }
  }

  /** Strict lexicographic order on character sequences, the order of the
      default `sort`: a proper prefix comes first, otherwise the first
      differing character decides. */
  predicate LexLess(a: string, b: string)
    decreases |a|
  {
    b != [] && (a == [] || a[0] < b[0] || (a[0] == b[0] && LexLess(a[1..], b[1..])))
  }

  predicate LexLessEq(a: string, b: string)
  {
    a == b || LexLess(a, b)
  }

  /** No string is before itself. */
  lemma {:induction false} LexIrreflexive(a: string)
    ensures !LexLess(a, a)
  {
    if a != [] { LexIrreflexive(a[1..]); }
  }

  /** The order is transitive. */
  lemma {:induction false} LexTransitive(a: string, b: string, c: string)
    requires LexLess(a, b) && LexLess(b, c)
    ensures LexLess(a, c)
    decreases |a|
  {
    if a != [] && a[0] == b[0] && b[0] == c[0] {
      LexTransitive(a[1..], b[1..], c[1..]);
    }
  }

  /** Any two different strings are ordered one way or the other. */
  lemma {:induction false} LexTotal(a: string, b: string)
    requires a != b
    ensures LexLess(a, b) || LexLess(b, a)
    decreases |a|
  {
    if a != [] && b != [] && a[0] == b[0] {
      assert a == [a[0]] + a[1..] && b == [b[0]] + b[1..];
      LexTotal(a[1..], b[1..]);
    }
  }

  /** Never both ways at once. */
  lemma LexAsymmetric(a: string, b: string)
    requires LexLess(a, b)
    ensures !LexLess(b, a)
  {
    if LexLess(b, a) {
      LexTransitive(a, b, a);
      LexIrreflexive(a);
    }
  }
}
