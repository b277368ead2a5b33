# Portfolio page: project filter, tag selection and scroll-spy

A Dafny model of the logic inside the single-page portfolio `src/sections/App.jsx`.
The page shows a fixed list of projects with a search box and a row of tag buttons,
and highlights in its table of contents the section currently in view. Four pieces of
behaviour are modelled:

- **The project filter** (`filtered`). A project stays visible when two tests pass.
  The lower-cased search text must occur in the lower-cased string
  `title + " " + summary + " " + tags.join(" ")`.
  Every selected tag must be one of the project's tags; with nothing selected, every project passes.
  The list order is kept. Modules `Text` and `ProjectFilter`.
- **The tag toggle and "Clear"** (`toggleTag`, the Clear button). Toggling a tag already in the
  selection removes every occurrence of it. Toggling a tag not in the selection appends it.
  Clear empties the selection. Module `TagSelection`.
- **The tag index** (`ALL_TAGS`): all projects' tags, flattened, repetitions dropped, then sorted
  in the default string order. Module `TagIndex`.
- **The active section** (`useActiveSection`). It starts at the first section id.
  Each observer callback walks its batch of entries in order.
  Every intersecting entry makes its section the active one, so the last one wins.
  A batch with no intersecting entry changes nothing. Module `ActiveSection`.

The page's three state slices (`query`, `selectedTags`, `active`) are the fields of the class
`Page.Controller`. Its methods are the events that change them. `ObserveBatch` is the
observer callback's loop. The filter, the toggle, the tag index and the batch rule are pure
functions, as in the page. Module `Fixture` holds the page's own four projects and five sections,
with lemmas about what the page does with them. Module `Seqs` holds generic sequence facts
(subsequence, no repetitions).

Some consequences of how the page's code is written:

- The selection is an array, not a set. Toggling a present tag removes every copy of it.
- Toggling the same tag twice gives back the original selection only as a set. When the tag was
  present, it comes back once, at the end (`ToggleTwicePresent`). When the tag was absent, the
  original sequence comes back exactly (`ToggleTwiceAbsent`).
- Fields and tags are joined with single spaces. A query can therefore match across a field
  boundary, e.g. the end of the summary plus the first tag.
- Every selected tag is one of the tag buttons only because toggles come from the buttons drawn
  from `ALL_TAGS` (`src/sections/App.jsx` l.249-254). `Page.Controller.ToggleTag` keeps this
  under that condition.

## Model

| member | source | states |
|---|---|---|
| Text.Lower | src/sections/App.jsx:123-125 | lower-casing keeps the length and lower-cases each character in place |
| Text.LowerIdempotent | src/sections/App.jsx:123-125 | lower-casing an already lower-cased string changes nothing |
| Text.Includes | src/sections/App.jsx:125 | definition of `includes`, a left-to-right search; its meaning is stated by `Text.IncludesIff` |
| Text.IncludesIff | src/sections/App.jsx:125 | the left-to-right `includes` search succeeds exactly when the needle occurs at some position |
| Text.Join | src/sections/App.jsx:123 | definition of `join`; `Text.JoinContains` states that every element occurs in the result |
| Text.JoinContains | src/sections/App.jsx:123 | every tag occurs in `tags.join(" ")` |
| Text.LexLess | src/sections/App.jsx:49 | definition of the default sort order on strings; `Text.LexIrreflexive`, `Text.LexTransitive` and `Text.LexTotal` show it is a strict total order |
| Text.LexIrreflexive | src/sections/App.jsx:49 | no string sorts before itself |
| Text.LexTransitive | src/sections/App.jsx:49 | the sort order is transitive |
| Text.LexTotal | src/sections/App.jsx:49 | any two different strings are ordered one way or the other |
| ProjectFilter.Haystack | src/sections/App.jsx:123 | definition of the searched text, title, summary and joined tags separated by single spaces; used by `ProjectFilter.TagQueryMatches` and `ProjectFilter.TitleQueryMatches` |
| ProjectFilter.MatchesQuery | src/sections/App.jsx:123-125 | definition of the text test; its properties are `ProjectFilter.EmptyQueryMatches`, `ProjectFilter.TagQueryMatches`, `ProjectFilter.TitleQueryMatches` and `ProjectFilter.FilterCaseInsensitive` |
| ProjectFilter.MatchesTags | src/sections/App.jsx:126-128 | definition of the tag test; its properties are `ProjectFilter.MissingTagHides`, `ProjectFilter.FilterSelectionAsSet` and `ProjectFilter.FilterTagMonotone` |
| ProjectFilter.Filter | src/sections/App.jsx:121-131 | the visible list is no longer than the list, and each of its projects is in the list and passes both tests |
| ProjectFilter.FilterSubsequence | src/sections/App.jsx:122-130 | the visible list is a subsequence of the list, so the list's order is kept |
| ProjectFilter.FilterMembership | src/sections/App.jsx:122-130 | a project is visible if and only if it is in the list, its haystack contains the query ignoring case, and it carries every selected tag (or none is selected) |
| ProjectFilter.FilterAppend | src/sections/App.jsx:122 | filtering a concatenation is the concatenation of the filtered parts |
| ProjectFilter.FilterAllOrNone | src/sections/App.jsx:122-130 | if every project passes, the list is shown unchanged; if none passes, nothing is shown |
| ProjectFilter.FilterCons | src/sections/App.jsx:122-130 | helper: one unfolding of the filter on a first project, shown ahead of the rest exactly when it passes |
| ProjectFilter.EmptyQueryMatches | src/sections/App.jsx:123-125 | the empty query matches every project |
| ProjectFilter.FilterIdentity | src/sections/App.jsx:123-128 | an empty query with no tag selected shows the whole list unchanged |
| ProjectFilter.FilterCaseInsensitive | src/sections/App.jsx:123-125 | two queries with the same lower-casing show the same list |
| ProjectFilter.FilterSelectionAsSet | src/sections/App.jsx:126-128 | only which tags are selected matters, not their order or repetition |
| ProjectFilter.FilterTagMonotone | src/sections/App.jsx:126-128 | selecting a superset of tags shows a subsequence of the list shown before, so never a project that was hidden |
| ProjectFilter.FilterIdempotent | src/sections/App.jsx:121-131 | filtering the visible list again changes nothing |
| ProjectFilter.TagQueryMatches | src/sections/App.jsx:123-125 | searching for one of a project's tags matches that project |
| ProjectFilter.TagQueryShows | src/sections/App.jsx:123-129 | a listed project carrying a tag that lower-cases like the query is shown unless the selected tags hide it |
| ProjectFilter.MissingTagHides | src/sections/App.jsx:126-128 | a selected tag the project lacks hides the project |
| ProjectFilter.TitleQueryMatches | src/sections/App.jsx:123-125 | searching for a project's title matches that project |
| ProjectFilter.TagAsQueryAddsNothing | src/sections/App.jsx:123-128 | typing the single selected tag as the query narrows nothing further |
| TagSelection.RemoveAll | src/sections/App.jsx:135 | the result is a subsequence of the selection, with the removed tag's count set to zero and every other count kept |
| TagSelection.Toggle | src/sections/App.jsx:133-136 | definition of `toggleTag`; its properties are `TagSelection.ToggleBranches`, `TagSelection.ToggleMembership`, `TagSelection.ToggleNoDups` and the three toggle-twice lemmas |
| TagSelection.ToggleBranches | src/sections/App.jsx:133-136 | a present tag is removed with every copy, the rest keeping order and count; an absent tag is appended at the end |
| TagSelection.ToggleMembership | src/sections/App.jsx:133-136 | after a toggle, the toggled tag's membership is flipped and every other tag's is unchanged |
| TagSelection.ToggleNoDups | src/sections/App.jsx:133-136 | a selection without repetitions stays without repetitions |
| TagSelection.ToggleTwiceAbsent | src/sections/App.jsx:133-136 | toggling an absent tag twice gives back exactly the same selection |
| TagSelection.ToggleTwicePresent | src/sections/App.jsx:133-136 | toggling a present tag twice leaves the other tags in order and the tag once, at the end |
| TagSelection.ToggleTwiceSameTags | src/sections/App.jsx:133-136 | toggling a tag twice gives back the same selection as a set |
| TagIndex.FlatTags | src/sections/App.jsx:49 | `flatMap` yields exactly the tags some project carries |
| TagIndex.Dedup | src/sections/App.jsx:49 | the `Set` step drops repetitions and keeps every element |
| TagIndex.Insert | src/sections/App.jsx:49 | inserting into a sorted sequence keeps it sorted and adds exactly one element |
| TagIndex.Sort | src/sections/App.jsx:49 | `sort` returns a sorted permutation of its input |
| TagIndex.AllTags | src/sections/App.jsx:49 | definition of `ALL_TAGS` as flatten, drop repetitions, sort; its properties are `TagIndex.AllTagsSpec` and `TagIndex.AllTagsUnique` |
| TagIndex.AllTagsSpec | src/sections/App.jsx:49 | the tag index is strictly ascending, has no repetitions, and holds exactly the tags some project carries |
| TagIndex.AllTagsUnique | src/sections/App.jsx:49 | the tag index is the only strictly ascending sequence of those tags |
| TagIndex.StrictlySortedUnique | src/sections/App.jsx:49 | two strictly ascending sequences with the same elements are equal |
| TagIndex.AdjacentStrictlySorted | src/sections/App.jsx:49 | each element before the next implies strict ascent throughout |
| ActiveSection.Initial | src/sections/App.jsx:53 | the active section starts at the first id, or undefined for an empty list |
| ActiveSection.LastIntersecting | src/sections/App.jsx:56-58 | nothing is reported if and only if no entry intersects; otherwise the id reported is that of an intersecting entry with no intersecting entry after it |
| ActiveSection.AfterBatch | src/sections/App.jsx:57 | definition of one observer callback: the last intersecting entry wins, else nothing changes; its properties are `ActiveSection.LastIntersecting`, `ActiveSection.AfterBatchConcat` and `ActiveSection.AfterBatchStaysInList` |
| ActiveSection.AfterBatchSnoc | src/sections/App.jsx:57 | helper: one unfolding of the batch rule on a last entry, which wins if it intersects and else changes nothing |
| ActiveSection.AfterBatchConcat | src/sections/App.jsx:56-58 | two batches in a row act like their concatenation |
| ActiveSection.AfterBatchStaysInList | src/sections/App.jsx:57-61 | when only the page's sections are observed, the active section stays one of them |
| Page.Controller.Visible | src/sections/App.jsx:121-131 | definition of `filtered` over the page state; its properties are those of `ProjectFilter.Filter` and the ensures of `Page.Controller.SetQuery` and `Page.Controller.Clear` |
| Page.Controller.constructor | src/sections/App.jsx:117-119 | a fresh page has an empty query, no selection, the first section active, and every project visible |
| Page.Controller.SetQuery | src/sections/App.jsx:244 | the query becomes the typed text and the visible list is the filter for it; nothing else changes |
| Page.Controller.ToggleTag | src/sections/App.jsx:133-136 | the selection becomes its toggle, flipping only that tag; it stays free of repetitions and, for a tag from the index, within the index |
| Page.Controller.Clear | src/sections/App.jsx:267 | the selection becomes empty, so a project is visible exactly when it is in the list and matches the query |
| Page.Controller.ObserveBatch | src/sections/App.jsx:56-58 | walking the entries in order leaves the active section as the last intersecting entry's id, or unchanged if none intersects |
| Fixture.JavaSelectsHospital | src/sections/App.jsx:18-47 | selecting "Java" shows only the hospital management system |
| Fixture.JavaAndReactSelectNothing | src/sections/App.jsx:18-47 | selecting "Java" and "React" shows nothing |
| Fixture.WebrtcFindsCameraMonitor | src/sections/App.jsx:27-31 | searching "webrtc" shows the camera monitor application |
| Fixture.ReactQueryIgnoresCase | src/sections/App.jsx:123-125 | "REACT" and "react" show the same projects |
| Fixture.AllTagsOfPage | src/sections/App.jsx:49 | the page's tag index is the seventeen tags in code-point order, "REST" before "Raspberry Pi" |
| Fixture.ToggleDockerOff | src/sections/App.jsx:133-136 | toggling "Docker" off a selection of just "Docker" empties it |
| Fixture.SkillsBecomesActive | src/sections/App.jsx:9-15 | a batch whose last intersecting entry is "skills" makes "skills" the active section |

## Left out

- Rendering, styling and layout (the JSX of `Badge`, `ProjectCard`, `Section` and the page body) are left out. They have no behaviour to state.
- The `IntersectionObserver` set-up is left out: its `rootMargin` and `threshold` options, `document.getElementById`, `observe` and `disconnect`. These are browser services. The model takes each callback's entries as input, with each entry carrying its target's id and its `isIntersecting` flag.
- `scrollTo` (`window.scrollTo` with `offsetTop - 80`) is viewport I/O and is not modelled.
- React's `useState`, `useEffect` and `useMemo` are not modelled. The state slices are plain fields, and the visible list is the function `Page.Controller.Visible` of them rather than a memoised value.
- Lower-casing covers ASCII letters only. Full Unicode `toLowerCase` is not modelled; it can, for instance, change a string's length.
- The sort order compares characters as Unicode scalar values. JavaScript compares UTF-16 code units, which differ only for characters outside the Basic Multilingual Plane.
- The engine's own sort algorithm is replaced by an insertion sort. `TagIndex.AllTagsUnique` shows the result cannot depend on the algorithm.
- The footer date and the outbound links are environment-dependent or opaque strings. A project's link is carried as a field and never inspected.
- Fixture.WebrtcFindsCameraMonitor: proves only that the camera monitor is shown for "webrtc", not that the other three projects are hidden. Proving that no position of their long lower-cased texts starts "webrtc" is beyond what the verifier does within its limits.
- Page.Controller.ObserveBatch: keeps the active section among the page's sections only for batches whose entries all target those sections. The observer only ever observes those elements, and the model states this as a condition of that guarantee rather than as a precondition.
