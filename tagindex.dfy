/** The row of tag buttons: every project's tags, flattened, with
    repetitions dropped (a `Set` keeps first occurrences), then sorted by the
    default string order. */
module TagIndex {
  import opened Seqs
  import opened Text
  import opened ProjectFilter

  /** `projects.flatMap(p => p.tags)`. */
  function FlatTags(projects: seq<Project>): (r: seq<string>)
    ensures forall t :: t in r <==> exists p :: p in projects && t in p.tags
  {
    if projects == [] then []
    else
      var rest := FlatTags(projects[1..]);
      assert forall p :: p in projects <==> p == projects[0] || p in projects[1..];
      projects[0].tags + rest
  }

  /** `Array.from(new Set(xs))`: the first occurrence of each element, in
      order of first occurrence. */
  function Dedup(xs: seq<string>): (r: seq<string>)
    ensures NoDups(r)
    ensures forall t :: t in r <==> t in xs
    decreases |xs|
  {
    if xs == [] then []
    else
      var init := Dedup(xs[..|xs| - 1]);
      var last := xs[|xs| - 1];
      assert forall t :: t in xs <==> t in xs[..|xs| - 1] || t == last by {
        assert xs == xs[..|xs| - 1] + [last];
      }
      if last in init then init
      else
        assert forall i :: 0 <= i < |init| ==> (init + [last])[i] == init[i];
        init + [last]
  }

  /** Ascending in the default string order, ties allowed. */
  ghost predicate Sorted(s: seq<string>)
  {
    forall i, j :: 0 <= i < j < |s| ==> LexLessEq(s[i], s[j])
  }

  /** Strictly ascending: sorted with no repetition. */
  ghost predicate StrictlySorted(s: seq<string>)
  {
    forall i, j :: 0 <= i < j < |s| ==> LexLess(s[i], s[j])
  }

  /** Places `x` before the first element it does not come after. */
  function Insert(s: seq<string>, x: string): (r: seq<string>)
    requires Sorted(s)
    ensures Sorted(r)
    ensures multiset(r) == multiset(s) + multiset{x}
  {
    if s == [] then [x]
    else if LexLessEq(x, s[0]) then
      forall j | 0 <= j < |s| ensures LexLessEq(x, s[j]) {
        if x != s[0] && s[0] != s[j] { LexTransitive(x, s[0], s[j]); }
      }
      [x] + s
    else
      assert s == [s[0]] + s[1..];
      var rest := Insert(s[1..], x);
      LexTotal(x, s[0]);
      forall y | y in multiset(rest) ensures LexLessEq(s[0], y) {
        assert y in s[1..] || y == x;
      }
      [s[0]] + rest
  }

  /** Insertion sort: the default `sort` on strings. */
  function Sort(xs: seq<string>): (r: seq<string>)
    ensures Sorted(r)
    ensures multiset(r) == multiset(xs)
  {
    if xs == [] then []
    else
      assert xs == [xs[0]] + xs[1..];
      Insert(Sort(xs[1..]), xs[0])
  }

  /** `ALL_TAGS`. */
  function AllTags(projects: seq<Project>): seq<string>
  {
    Sort(Dedup(FlatTags(projects)))
  }

  /** The tag index is strictly ascending, hence free of repetitions, and
      holds exactly the tags some project carries. */
  lemma AllTagsSpec(projects: seq<Project>)
    ensures StrictlySorted(AllTags(projects))
    ensures NoDups(AllTags(projects))
    ensures forall t :: t in AllTags(projects) <==> exists p :: p in projects && t in p.tags
  {
    var d := Dedup(FlatTags(projects));
    var r := AllTags(projects);
    forall t ensures t in r <==> t in d {
      assert t in r <==> t in multiset(r);
      assert t in d <==> t in multiset(d);
    }
    PermutationNoDups(d, r);
    forall i, j | 0 <= i < j < |r| ensures LexLess(r[i], r[j]) {
    }
  }

  /** The tag index is the one strictly ascending sequence of the tags the
      projects carry. */
  lemma AllTagsUnique(projects: seq<Project>, expected: seq<string>)
    requires StrictlySorted(expected)
    requires forall t :: t in expected <==> exists p :: p in projects && t in p.tags
    ensures AllTags(projects) == expected
  {
    AllTagsSpec(projects);
    StrictlySortedUnique(expected, AllTags(projects));
  }

  /** A rearrangement of a sequence without repetitions has none either. */
  lemma PermutationNoDups(a: seq<string>, b: seq<string>)
    requires NoDups(a) && multiset(a) == multiset(b)
    ensures NoDups(b)
  {
    forall x | x in multiset(b) ensures multiset(b)[x] == 1 {
      CountInNoDups(a, x);
    }
    forall i, j | 0 <= i < j < |b| ensures b[i] != b[j] {
      var x := b[i];
      assert b == b[..j] + [b[j]] + b[j + 1..];
      assert x in b[..j];
      assert multiset(b)[x] == multiset(b[..j])[x] + multiset([b[j]])[x] + multiset(b[j + 1..])[x];
    }
  }

  lemma {:induction false} CountInNoDups(s: seq<string>, x: string)
    requires NoDups(s) && x in s
    ensures multiset(s)[x] == 1
  {
    assert s == [s[0]] + s[1..];
    if x == s[0] {
      assert x !in multiset(s[1..]);
    } else {
      CountInNoDups(s[1..], x);
    }
  }

  /** In a strictly ascending sequence every later element comes after the
      head, so differs from it. */
  lemma StrictlySortedTail(s: seq<string>, t: string)
    requires StrictlySorted(s) && |s| > 0 && t in s[1..]
    ensures LexLess(s[0], t) && t != s[0]
  {
    var k :| 0 <= k < |s| - 1 && s[1..][k] == t;
    assert s[k + 1] == t;
    LexIrreflexive(t);
  }

  /** Two strictly ascending sequences with the same elements are equal: the
      index does not depend on the order of the projects or of their tags. */
  lemma {:induction false} StrictlySortedUnique(a: seq<string>, b: seq<string>)
    requires StrictlySorted(a) && StrictlySorted(b)
    requires forall t :: t in a <==> t in b
    ensures a == b
  {
    assert a == [] <==> b == [] by {
      if a != [] { assert a[0] in a; }
      if b != [] { assert b[0] in b; }
    }
    if a != [] {
      assert a[0] in b && b[0] in a;
      assert a == [a[0]] + a[1..] && b == [b[0]] + b[1..];
      if a[0] != b[0] {
        StrictlySortedTail(b, a[0]);
        StrictlySortedTail(a, b[0]);
        LexAsymmetric(a[0], b[0]);
      }
      forall t | t in a[1..] ensures t in b[1..] {
        StrictlySortedTail(a, t);
        assert t in a && t in b;
      }
      forall t | t in b[1..] ensures t in a[1..] {
        StrictlySortedTail(b, t);
        assert t in b && t in a;
      }
      StrictlySortedUnique(a[1..], b[1..]);
    }
  }

  /** Each element before the next is enough for strict ascent. */
  lemma {:induction false} AdjacentStrictlySorted(s: seq<string>)
    requires forall i :: 0 <= i < |s| - 1 ==> LexLess(s[i], s[i + 1])
    ensures StrictlySorted(s)
  {
    if |s| > 1 {
      AdjacentStrictlySorted(s[1..]);
      forall j | 1 <= j < |s| ensures LexLess(s[0], s[j]) {
        if j > 1 {
          assert LexLess(s[1..][0], s[1..][j - 1]);
          LexTransitive(s[0], s[1], s[j]);
        }
      }
      forall i, j | 0 <= i < j < |s| ensures LexLess(s[i], s[j]) {
        if i > 0 {
          assert LexLess(s[1..][i - 1], s[1..][j - 1]);
        }
      }
    }
  }
}
