/** The project list filter of the portfolio page: a project stays visible
    when the search text occurs in it, ignoring case, and it carries every
    selected tag. */
module ProjectFilter {
  import opened Seqs
  import opened Text

  /** One portfolio entry; the link is an opaque string. */
  datatype Project = Project(title: string, summary: string, tags: seq<string>, link: string)

  /** The text searched: title, summary and the tags, joined by single
      spaces into one string, so a query may straddle two fields. */
  function Haystack(p: Project): string
  {
    p.title + " " + p.summary + " " + Join(p.tags, " ")
  }

  /** Text test: the lower-cased query occurs in the lower-cased haystack. */
  predicate MatchesQuery(p: Project, query: string)
  {
    Includes(Lower(Haystack(p)), Lower(query))
  }

  /** Tag test: no tag selected, or every selected tag is one of the
      project's tags. */
  predicate MatchesTags(p: Project, selected: seq<string>)
  {
    |selected| == 0 || forall t :: t in selected ==> t in p.tags
  }

  predicate Accepts(p: Project, query: string, selected: seq<string>)
  {
    MatchesQuery(p, query) && MatchesTags(p, selected)
  }

  /** The visible projects, in list order. */
  function Filter(projects: seq<Project>, query: string, selected: seq<string>): (r: seq<Project>)
    ensures |r| <= |projects|
    ensures forall p :: p in r ==> p in projects && Accepts(p, query, selected)
  {
    if projects == [] then []
    else
      var rest := Filter(projects[1..], query, selected);
      if Accepts(projects[0], query, selected) then [projects[0]] + rest else rest
  }

  /** The first project is shown exactly when it passes, ahead of the rest. */
  lemma FilterCons(p: Project, rest: seq<Project>, query: string, selected: seq<string>)
    ensures Filter([p] + rest, query, selected) ==
      (if Accepts(p, query, selected) then [p] else []) + Filter(rest, query, selected)
  {
    assert ([p] + rest)[1..] == rest;
  }

  /** The visible list keeps the list's order: it is a subsequence. */
  lemma {:induction false} FilterSubsequence(projects: seq<Project>, query: string, selected: seq<string>)
    ensures IsSubsequence(Filter(projects, query, selected), projects)
  {
    if projects != [] {
      FilterSubsequence(projects[1..], query, selected);
    }
  }

  /** A project of the list is visible exactly when it passes both tests. */
  lemma {:induction false} FilterMembership(projects: seq<Project>, query: string, selected: seq<string>, p: Project)
    ensures p in Filter(projects, query, selected) <==> p in projects && Accepts(p, query, selected)
  {
    if projects != [] {
      FilterMembership(projects[1..], query, selected, p);
      assert p in projects <==> p == projects[0] || p in projects[1..];
    }
  }

  /** Filtering a concatenation filters each part. */
  lemma {:induction false} FilterAppend(a: seq<Project>, b: seq<Project>, query: string, selected: seq<string>)
    ensures Filter(a + b, query, selected) == Filter(a, query, selected) + Filter(b, query, selected)
  {
    if a != [] {
      assert (a + b)[0] == a[0] && (a + b)[1..] == a[1..] + b;
      FilterAppend(a[1..], b, query, selected);
      var rest := Filter(a[1..] + b, query, selected);
      assert Filter(a + b, query, selected) == (if Accepts(a[0], query, selected) then [a[0]] else []) + rest;
    } else {
      assert a + b == b;
    }
  }

  /** When every project passes, nothing is dropped; when none passes,
      nothing is shown. */
  lemma {:induction false} FilterAllOrNone(projects: seq<Project>, query: string, selected: seq<string>)
    ensures (forall p :: p in projects ==> Accepts(p, query, selected)) ==> Filter(projects, query, selected) == projects
    ensures (forall p :: p in projects ==> !Accepts(p, query, selected)) ==> Filter(projects, query, selected) == []
  {
    if projects != [] {
      FilterAllOrNone(projects[1..], query, selected);
      assert projects == [projects[0]] + projects[1..];
    }
  }

  /** The empty string occurs in every string, so the empty query matches
      every project. */
  lemma EmptyQueryMatches(p: Project)
    ensures MatchesQuery(p, "")
  {
    assert Lower("") == "";
  }

  /** An empty query and no selected tag show the whole list unchanged. */
  lemma FilterIdentity(projects: seq<Project>)
    ensures Filter(projects, "", []) == projects
  {
    forall p | p in projects ensures Accepts(p, "", []) {
      EmptyQueryMatches(p);
    }
    FilterAllOrNone(projects, "", []);
  }

  /** Queries that lower-case to the same string show the same list. */
  lemma {:induction false} FilterCaseInsensitive(projects: seq<Project>, q1: string, q2: string, selected: seq<string>)
    requires Lower(q1) == Lower(q2)
    ensures Filter(projects, q1, selected) == Filter(projects, q2, selected)
  {
    if projects != [] {
      FilterCaseInsensitive(projects[1..], q1, q2, selected);
    }
  }

  /** Only which tags are selected matters, not their order or repetition. */
  lemma {:induction false} FilterSelectionAsSet(projects: seq<Project>, query: string, s1: seq<string>, s2: seq<string>)
    requires forall t :: t in s1 <==> t in s2
    ensures Filter(projects, query, s1) == Filter(projects, query, s2)
  {
    if projects != [] {
      FilterSelectionAsSet(projects[1..], query, s1, s2);
      assert |s1| == 0 <==> |s2| == 0 by {
        if |s1| != 0 { assert s1[0] in s2; }
        if |s2| != 0 { assert s2[0] in s1; }
      }
    }
  }

  /** Selecting more tags never shows a project that was hidden: the
      tighter selection's list is a subsequence of the looser one's. */
  lemma {:induction false} FilterTagMonotone(projects: seq<Project>, query: string, fewer: seq<string>, more: seq<string>)
    requires forall t :: t in fewer ==> t in more
    ensures IsSubsequence(Filter(projects, query, more), Filter(projects, query, fewer))
    ensures |Filter(projects, query, more)| <= |Filter(projects, query, fewer)|
    ensures forall p :: p in Filter(projects, query, more) ==> p in Filter(projects, query, fewer)
  {
    MonotoneSubsequence(projects, query, fewer, more);
    SubsequenceElements(Filter(projects, query, more), Filter(projects, query, fewer));
  }

  lemma {:induction false} MonotoneSubsequence(projects: seq<Project>, query: string, fewer: seq<string>, more: seq<string>)
    requires forall t :: t in fewer ==> t in more
    ensures IsSubsequence(Filter(projects, query, more), Filter(projects, query, fewer))
  {
    if projects != [] {
      var p := projects[0];
      MonotoneSubsequence(projects[1..], query, fewer, more);
      var a, b := Filter(projects[1..], query, more), Filter(projects[1..], query, fewer);
      if Accepts(p, query, more) {
        assert Accepts(p, query, fewer) by {
          if |fewer| != 0 { assert fewer[0] in more; }
        }
        assert ([p] + a)[1..] == a && ([p] + b)[1..] == b;
      } else if Accepts(p, query, fewer) {
        assert ([p] + b)[1..] == b;
      }
    }
  }

  /** Filtering what is already visible changes nothing. */
  lemma FilterIdempotent(projects: seq<Project>, query: string, selected: seq<string>)
    ensures Filter(Filter(projects, query, selected), query, selected) == Filter(projects, query, selected)
  {
    FilterAllOrNone(Filter(projects, query, selected), query, selected);
  }

  /** Searching for one of a project's tags, in any case, finds it. */
  lemma TagQueryMatches(p: Project, t: string)
    requires t in p.tags
    ensures MatchesQuery(p, t)
  {
    JoinContains(p.tags, " ", t);
    var i :| OccursAt(Join(p.tags, " "), t, i);
    OccursInMiddle(p.title + " " + p.summary + " ", Join(p.tags, " "), "", t, i);
    assert p.title + " " + p.summary + " " + Join(p.tags, " ") + "" == Haystack(p);
    OccursLower(Haystack(p), t, |p.title + " " + p.summary + " "| + i);
    IncludesIff(Lower(Haystack(p)), Lower(t));
  }

  /** A project carrying a tag that lower-cases like the query is shown,
      unless the selected tags hide it. */
  lemma TagQueryShows(projects: seq<Project>, p: Project, t: string, query: string, selected: seq<string>)
    requires p in projects && t in p.tags && Lower(query) == Lower(t) && MatchesTags(p, selected)
    ensures p in Filter(projects, query, selected)
  {
    TagQueryMatches(p, t);
    FilterMembership(projects, query, selected, p);
  }

  /** Searching for a project's title finds it. */
  lemma TitleQueryMatches(p: Project)
    ensures MatchesQuery(p, p.title)
  {
    var h := Haystack(p);
    assert h == p.title + (" " + p.summary + " " + Join(p.tags, " "));
    assert h[0..|p.title|] == p.title;
    assert OccursAt(h, p.title, 0);
    OccursLower(h, p.title, 0);
    IncludesIff(Lower(Haystack(p)), Lower(p.title));
  }

  /** Typing the name of the single selected tag into the search box does
      not narrow the list any further. */
  lemma {:induction false} TagAsQueryAddsNothing(projects: seq<Project>, t: string)
    ensures Filter(projects, t, [t]) == Filter(projects, "", [t])
  {
    if projects != [] {
      TagAsQueryAddsNothing(projects[1..], t);
      EmptyQueryMatches(projects[0]);
      if MatchesTags(projects[0], [t]) {
        TagQueryMatches(projects[0], t);
      }
    }
  }

  /** A selected tag the project lacks hides it. */
  lemma MissingTagHides(p: Project, selected: seq<string>, t: string)
    requires t in selected && t !in p.tags
    ensures !MatchesTags(p, selected)
  {
  }
}
