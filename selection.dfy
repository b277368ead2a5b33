/** The tag selection: clicking a tag button removes the tag from the
    selection when it is there and appends it otherwise; "Clear" empties it. */
module TagSelection {
  import opened Seqs

  /** `prev.filter(x => x !== t)`: every occurrence of `t` dropped, the rest
      kept in order. */
  function RemoveAll(prev: seq<string>, t: string): (r: seq<string>)
    ensures IsSubsequence(r, prev)
    ensures multiset(r) == multiset(prev)[t := 0]
  {
    if prev == [] then []
    else
      var rest := RemoveAll(prev[1..], t);
      assert prev == [prev[0]] + prev[1..];
      if prev[0] != t then
        assert ([prev[0]] + rest)[1..] == rest;
        [prev[0]] + rest
      else rest
  }

  /** `toggleTag`. */
  function Toggle(prev: seq<string>, t: string): seq<string>
  {
    if t in prev then RemoveAll(prev, t) else prev + [t]
  }

  /** Both branches of the toggle: a present tag is removed entirely, the
      other tags keeping their order and multiplicity; an absent tag is
      appended at the end. */
  lemma ToggleBranches(prev: seq<string>, t: string)
    ensures t in prev ==> t !in Toggle(prev, t)
    ensures t in prev ==> IsSubsequence(Toggle(prev, t), prev)
    ensures t in prev ==> multiset(Toggle(prev, t)) == multiset(prev)[t := 0]
    ensures t !in prev ==> Toggle(prev, t) == prev + [t]
  {
    if t in prev {
      var r := RemoveAll(prev, t);
      assert multiset(r)[t] == 0;
    }
  }

  /** A toggle flips the membership of `t` and of nothing else. */
  lemma ToggleMembership(prev: seq<string>, t: string, x: string)
    ensures x in Toggle(prev, t) <==> (x in prev) != (x == t)
  {
    if t in prev {
      var r := RemoveAll(prev, t);
      assert x in r <==> multiset(r)[x] > 0;
      assert x in prev <==> multiset(prev)[x] > 0;
    }
  }

  /** A selection without repetitions stays without repetitions. */
  lemma ToggleNoDups(prev: seq<string>, t: string)
    requires NoDups(prev)
    ensures NoDups(Toggle(prev, t))
  {
    var r := Toggle(prev, t);
    if t in prev {
      SubsequenceNoDups(r, prev);
    } else {
      forall i, j | 0 <= i < j < |r| ensures r[i] != r[j] {
        if j == |prev| { assert r[i] in prev; }
      }
    }
  }

  /** Toggling an absent tag twice gives back the same selection. */
  lemma ToggleTwiceAbsent(prev: seq<string>, t: string)
    requires t !in prev
    ensures Toggle(Toggle(prev, t), t) == prev
  {
    RemoveAppended(prev, t);
  }

  /** Toggling a present tag twice moves every occurrence of it to a single
      one at the end. */
  lemma ToggleTwicePresent(prev: seq<string>, t: string)
    requires t in prev
    ensures Toggle(Toggle(prev, t), t) == RemoveAll(prev, t) + [t]
  {
    ToggleBranches(prev, t);
  }

  /** Toggling twice gives back the same selection as a set. */
  lemma ToggleTwiceSameTags(prev: seq<string>, t: string, x: string)
    ensures x in Toggle(Toggle(prev, t), t) <==> x in prev
  {
    ToggleMembership(prev, t, x);
    ToggleMembership(Toggle(prev, t), t, x);
  }

  /** Removing a tag that was just appended to a selection without it. */
  lemma {:induction false} RemoveAppended(prev: seq<string>, t: string)
    requires t !in prev
    ensures RemoveAll(prev + [t], t) == prev
  {
    if prev == [] {
      assert RemoveAll([t], t) == RemoveAll([], t);
    } else {
      assert (prev + [t])[1..] == prev[1..] + [t];
      RemoveAppended(prev[1..], t);
      assert prev == [prev[0]] + prev[1..];
    }
  }
}
