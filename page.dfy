/** The page controller: the three pieces of state the page keeps (the
    search text, the selected tags, the highlighted section) and the events
    that change them. The project list, its tag index and the section ids
    are fixed when the page is built. */
module Page {
  import opened Seqs
  import opened ProjectFilter
  import opened TagSelection
  import opened TagIndex
  import opened ActiveSection

  class Controller {
    const projects: seq<Project>
    const allTags: seq<string>
    const sectionIds: seq<string>

    var query: string
    var selectedTags: seq<string>
    var active: Option<string>

    /** The selection never repeats a tag, and the highlighted section, when
        there is one, is one of the page's sections. */
    ghost predicate Valid()
      reads this
    {
      NoDups(selectedTags) &&
      (active.Some? ==> active.value in sectionIds)
    }

    /** Every selected tag is one of the tag buttons. */
    ghost predicate SelectionInIndex()
      reads this
    {
      forall t :: t in selectedTags ==> t in allTags
    }

    /** The visible project cards: `filtered`. */
    function Visible(): seq<Project>
      reads this
    {
      Filter(projects, query, selectedTags)
    }

    /** A fresh page: empty search, nothing selected, first section
        highlighted; every project is visible. */
    constructor (projects: seq<Project>, sectionIds: seq<string>)
      ensures Valid() && SelectionInIndex()
      ensures this.projects == projects && this.sectionIds == sectionIds
      ensures allTags == AllTags(projects)
      ensures query == "" && selectedTags == []
      ensures active == Initial(sectionIds)
      ensures Visible() == projects
    {
      this.projects := projects;
      this.allTags := AllTags(projects);
      this.sectionIds := sectionIds;
      query := "";
      selectedTags := [];
      active := Initial(sectionIds);
      FilterIdentity(projects);
    }

    /** Typing in the search box. */
    method SetQuery(q: string)
      requires Valid()
      modifies this`query
      ensures Valid()
      ensures query == q
      ensures Visible() == Filter(projects, q, selectedTags)
    {
      query := q;
    }

    /** Clicking a tag button: the tag's selection is flipped, nothing else
        changes, and with a tag from the index the selection stays within
        the index. */
    method ToggleTag(t: string)
      requires Valid()
      modifies this`selectedTags
      ensures Valid()
      ensures selectedTags == Toggle(old(selectedTags), t)
      ensures forall x :: x in selectedTags <==> (x in old(selectedTags)) != (x == t)
      ensures old(SelectionInIndex()) && t in allTags ==> SelectionInIndex()
    {
      ToggleNoDups(selectedTags, t);
      forall x ensures x in Toggle(selectedTags, t) <==> (x in selectedTags) != (x == t) {
        ToggleMembership(selectedTags, t, x);
      }
      selectedTags := Toggle(selectedTags, t);
    }

    /** The "Clear" button: nothing selected, so only the search text
        filters. */
    method Clear()
      requires Valid()
      modifies this`selectedTags
      ensures Valid() && SelectionInIndex()
      ensures selectedTags == []
      ensures forall p :: p in Visible() <==> p in projects && MatchesQuery(p, query)
    {
      selectedTags := [];
      forall p ensures p in Visible() <==> p in projects && MatchesQuery(p, query) {
        FilterMembership(projects, query, [], p);
      }
    }

    /** One observer callback: the entries are visited in order and each
        intersecting one makes its section the highlighted one. */
    method ObserveBatch(entries: seq<Entry>)
      requires Valid()
      modifies this`active
      ensures active == AfterBatch(old(active), entries)
      ensures (forall i :: 0 <= i < |entries| ==> entries[i].targetId in sectionIds) ==> Valid()
    {
      ghost var start := active;
      var i := 0;
      while i < |entries|
        invariant 0 <= i <= |entries|
        invariant active == AfterBatch(start, entries[..i])
      {
        AfterBatchSnoc(start, entries[..i], entries[i]);
        assert entries[..i + 1] == entries[..i] + [entries[i]];
        if entries[i].isIntersecting {
          active := Some(entries[i].targetId);
        }
        i := i + 1;
      }
      assert entries[..i] == entries;
      AfterBatchStaysInList(start, entries, sectionIds);
    }
  }
}
