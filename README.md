# Movie dashboard filter pipeline, modelled in Dafny

The dashboard component loads a list of movies from a catalog service. It shows
the movies that pass three user criteria, together with a count of them:

- a title search that ignores case;
- an optional genre;
- an optional release-year text.

This project models that filter pipeline and the component state around it.

- `wrappers.dfy`: `Option`, for a release date that may be absent and for "no genre selected".
- `text.dfy`: ASCII `ToLower`/`ToUpper`, standing in for `toLowerCase`/`toUpperCase`. Also
  `Contains`, standing in for `String.prototype.includes`, proved equal to the positional
  definition of a substring.
- `sequences.dfy`: `Select`, standing in for `Array.prototype.filter`, and `Map`. Also the
  subsequence relation and the facts that filters are built from: membership, fusion of two
  filters, idempotence, monotonicity, and commuting with a renaming.
- `movie_filter.dfy`: the `Movie` and `Criteria` records and the three tests. `Filter` applies
  the three stages in the source's order. The lemmas relate it to the single-pass reference
  `Matches`.
- `dashboard.dfy`: class `Dashboard`. Its fields are the component's state (`movies`,
  `filteredMovies`, the three inputs, `totalMovies`). `Load` models the fetch-success path,
  `Refilter` models the filter effect, and `CalculateStats` models the count.

`MatchesTitle`, `MatchesGenre` and `MatchesYear` are the three predicate lambdas of the effect
(Dashboard.jsx lines 60, 65 and 71). `ByTitle`, `ByGenre` and `ByYear` are its three stages:
the unconditional title filter, and the genre and year filters skipped under their falsy guards
(lines 59-61, 63-67, 69-73). `CurrentCriteria` only bundles the three input fields. These parts of
`Filter` carry no contracts of their own; their meaning is stated by `FilterMember` and
`FilterIsSelectMatches`.

Conventions taken from the source:

- The selected genre is `Option<int>`. `None` is the "All Genres" entry (the empty string,
  which is falsy). `Some(id)` is an entry, whose value is a genre id. Genre `0` is still
  applied, because the string `"0"` is truthy.
- The year is the raw input text. An empty text skips the year stage.
- A release date that is absent or the empty string is falsy, so such a movie fails the year
  stage. `MatchesYear` keeps the empty-string check explicit, as the source's `&&` does.
- `Load` sets the filtered list to the raw results whatever the inputs hold, as the source
  does. The effect then runs again because the raw list changed. `LoadThenRefilter` shows that
  the two together leave the list consistent with the inputs. When the inputs are empty,
  `Load` alone already does.

## Model

| member | source | states |
|---|---|---|
| `Text.ToLower` | Data-Dashboard/src/components/Dashboard.jsx:60 | same length as the input. Every character is lower-cased pointwise, and no ASCII upper-case letter remains |
| `Text.ToLowerIdempotent` | Data-Dashboard/src/components/Dashboard.jsx:60 | lower-casing an already lower-cased text changes nothing |
| `Text.ToLowerOfToUpper` | Data-Dashboard/src/components/Dashboard.jsx:60 | upper-casing first does not change the lower-cased text, so under the ASCII mapping case changes are invisible to the search |
| `Text.Contains` | Data-Dashboard/src/components/Dashboard.jsx:60 | `includes`: the empty text is contained in every text, and a contained text is no longer than its container |
| `Text.ContainsChars` | Data-Dashboard/src/components/Dashboard.jsx:71 | every character of a contained text occurs in the text containing it |
| `Text.ContainsIffOccurs` | Data-Dashboard/src/components/Dashboard.jsx:71 | `Contains(s, sub)` holds exactly when `sub` occurs at some index of `s` (both directions) |
| `Sequences.Select` | Data-Dashboard/src/components/Dashboard.jsx:59-61 | `filter` returns no more elements than its input, and every returned element passes the test |
| `Sequences.SelectIsSubsequence` | Data-Dashboard/src/components/Dashboard.jsx:59-61 | what `filter` returns is a subsequence of its input |
| `Sequences.SelectMember` | Data-Dashboard/src/components/Dashboard.jsx:59-61 | an element is in the result exactly when it is in the input and passes the test |
| `Sequences.SelectFuse` | Data-Dashboard/src/components/Dashboard.jsx:63-73 | two filters in a row equal one filter by the conjunction of their tests |
| `Sequences.SelectMonotone` | Data-Dashboard/src/components/Dashboard.jsx:69-73 | filtering a subsequence gives a subsequence of the filtered whole |
| `MovieFilter.Filter` | Data-Dashboard/src/components/Dashboard.jsx:58-74 | the three stages in order. The result is never longer than the raw list |
| `MovieFilter.FilterIsSelectMatches` | Data-Dashboard/src/components/Dashboard.jsx:59-73 | the chained filters keep exactly what one filter by the conjunction of the three criteria keeps, in order and with multiplicity |
| `MovieFilter.FilterMember` | Data-Dashboard/src/components/Dashboard.jsx:59-73 | a movie is shown exactly when all of these hold: it is in the raw list; its lower-cased title contains the lower-cased search; no genre is selected or its genre ids include the selected id; no year is given or its release date is present, non-empty and contains the year |
| `MovieFilter.FilterIsSubsequence` | Data-Dashboard/src/components/Dashboard.jsx:59-73 | the filtered list is a subsequence of the raw list: no movie added, order kept |
| `MovieFilter.FilterNoCriteria` | Data-Dashboard/src/components/Dashboard.jsx:59-73 | with an empty search, no genre and an empty year, the filtered list is the raw list |
| `MovieFilter.FilterSearchCaseInsensitive` | Data-Dashboard/src/components/Dashboard.jsx:60 | two search texts with the same lower-cased form give the same filtered list |
| `MovieFilter.FilterSearchUpperCase` | Data-Dashboard/src/components/Dashboard.jsx:60 | upper-casing the search text gives the same filtered list |
| `MovieFilter.UpcaseTitle` | Data-Dashboard/src/components/Dashboard.jsx:60 | re-casing a title keeps its lower-cased form and every other field |
| `MovieFilter.FilterRecaseTitles` | Data-Dashboard/src/components/Dashboard.jsx:60 | for any re-casing of titles that keeps each lower-cased title and every other field (per movie, in any way), filtering the re-cased list gives the re-cased filtered list |
| `MovieFilter.FilterTitleCaseInsensitive` | Data-Dashboard/src/components/Dashboard.jsx:60 | the instance of the above with every title upper-cased |
| `MovieFilter.FilterYearExcludesMissingDate` | Data-Dashboard/src/components/Dashboard.jsx:69-73 | when a year is given, a movie whose release date is absent or empty is not shown |
| `MovieFilter.FilterGenreNarrows` | Data-Dashboard/src/components/Dashboard.jsx:63-67 | selecting a genre gives a subsequence of the result without one |
| `MovieFilter.FilterYearNarrows` | Data-Dashboard/src/components/Dashboard.jsx:69-73 | entering a year gives a subsequence of the result without one |
| `MovieFilter.FilterNarrowsTitleSearch` | Data-Dashboard/src/components/Dashboard.jsx:63-73 | the genre and year stages together give a subsequence of the title search's result, and no longer a list |
| `MovieFilter.FilterIdempotent` | Data-Dashboard/src/components/Dashboard.jsx:59-73 | filtering the filtered list again with the same criteria returns it unchanged |
| `MovieFilter.FilterPair` | Data-Dashboard/src/components/Dashboard.jsx:59-73 | on a two-movie list, each movie is kept exactly when it matches, in order |
| `MovieFilter.ExampleSearch` | Data-Dashboard/src/components/Dashboard.jsx:59-61 | searching "du" among Dune and Cars shows Dune only |
| `MovieFilter.ExampleYear` | Data-Dashboard/src/components/Dashboard.jsx:69-73 | the year "2006" among Dune (2021) and Cars (2006) shows Cars only |
| `MovieFilter.ExampleNoMatch` | Data-Dashboard/src/components/Dashboard.jsx:59-61 | searching "zz" shows nothing |
| `DashboardState.Dashboard.constructor` | Data-Dashboard/src/components/Dashboard.jsx:6-13 | all lists and inputs start empty and the count at zero. The empty list is consistent with the empty inputs |
| `DashboardState.Dashboard.CalculateStats` | Data-Dashboard/src/components/Dashboard.jsx:49-55 | the total is set to the length of the given list, and nothing else changes |
| `DashboardState.Dashboard.Load` | Data-Dashboard/src/components/Dashboard.jsx:25-27 | after a successful load, both lists are the results and the total is their length. The inputs are unchanged |
| `DashboardState.Dashboard.SetSearchTerm` | Data-Dashboard/src/components/Dashboard.jsx:88 | only the search text changes |
| `DashboardState.Dashboard.SetSelectedGenre` | Data-Dashboard/src/components/Dashboard.jsx:95 | only the selected genre changes |
| `DashboardState.Dashboard.SetSelectedYear` | Data-Dashboard/src/components/Dashboard.jsx:111 | only the year text changes |
| `DashboardState.Dashboard.Refilter` | Data-Dashboard/src/components/Dashboard.jsx:58-77 | the filtered list becomes `Filter` of the raw list and the inputs, and the total becomes its length. The raw list and the inputs are unchanged |
| `DashboardState.LoadThenRefilter` | Data-Dashboard/src/components/Dashboard.jsx:25-27 | a load followed by the effect it triggers leaves the count equal to the list's length and the list consistent with the inputs |

## Left out

- The network fetches (`axios` calls, `async` functions, error logging) are I/O against a library that is not part of this model. `Load` takes the fetched results as a parameter. The failure path leaves the state unchanged, which here means not calling `Load`.
- The genre list (`genres`, `setGenres`) is fetched and only used to render the dropdown, so it is not modelled.
- The average rating (`reduce` over `vote_average`, the division, `toFixed(1)`) is floating-point work, and on an empty list the source produces NaN. `CalculateStats` models only the count, so `vote_average` is not a field of `Movie`.
- The `id` and `poster_path` fields, and all of the JSX rendering, are UI only.
- `Text.ToLower`: lower-cases ASCII letters only. Full Unicode `toLowerCase` is not modelled. The one-for-one length of `ToLower` and `ToUpper`, and the case-invariance lemmas (`Text.ToLowerOfToUpper`, `MovieFilter.FilterSearchUpperCase`, `MovieFilter.FilterTitleCaseInsensitive`), hold of this ASCII mapping. Under Unicode they can fail: `'ß'` upper-cases to `"SS"`, and `'İ'` lower-cases to two characters.
- Movies without a title or without genre ids are not modelled. In the source, `movie.title.toLowerCase()` (line 60) and `movie.genre_ids.includes` (line 65) throw a TypeError on such a movie. The model's `Movie` always has both fields.
- `parseInt` on the dropdown's string value is not modelled. The dropdown's values are genre ids, so the selected genre is an `Option<int>`.
- React's effect scheduling and re-render timing are not modelled. `Refilter` is called explicitly after a change to any of its inputs, as `LoadThenRefilter` does after a load.
