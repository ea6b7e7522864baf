# Book Finder search and detail views, modelled in Dafny

This project models the two views of the Book Finder single-page client.

- **Catalog view** (`src/components/Main.jsx`). It keeps the batch of records fetched when it mounts. It shows four of them in an unpredictable order. While the user types, it suggests up to five titles whose title or authors start with the typed text. A search narrows the grid to the records whose title or authors contain the query. Choosing a suggestion narrows the grid to the records with that title. Clearing the input shows four random records again.
- **Detail view** (`src/components/BookDetails.jsx`). It shows one record: the description with its HTML tags removed, fixed placeholders for missing fields, and a Read More / Show Less toggle for long descriptions.

Files and modules:

- `wrappers.dfy` (`Wrappers`): `Option`, standing for a JSON property that may be `undefined`.
- `text.dfy` (`Text`): the JavaScript string operations the views use. These are `toLowerCase` (ASCII letters only), `trim` (the exact ECMAScript white-space set), `startsWith`, `includes` and `join`, and `length`, which counts UTF-16 code units.
- `js_map.dfy` (`JsMap`): an ECMAScript `Map` (section 24.1 of ECMA-262) as its list of entries in insertion order. A key set again keeps its position and takes the new value. `FromEntriesSpec` states what `new Map(entries)` holds without saying how it is built.
- `js_array.dfy` (`JsArray`): `filter` and `slice(0, n)`, with `filter` characterised by the positions it keeps.
- `books.dfy` (`Books`): the record shape both views read (`volumeInfo` with title, authors, publisher, date, page count, thumbnail and description).
- `catalog.dfy` (`Catalog`): the match tests, the suggestion pipeline and its lemmas. The class `SearchView` holds the four state hooks `query`, `books`, `filteredBooks` and `suggestions`, with one method per handler.
- `details.dfy` (`Details`): the tag stripper and its lemmas, the fallbacks, `Render`, and the class `DetailView` holding `book` and `isExpanded`.
- `scenarios.dfy` (`Scenarios`): worked examples over concrete records.

Two behaviours of the code that may surprise a reader; the model follows the code in both.

- A failed lookup leaves the detail page loading only when `fetch` or `response.json()` throws, or the body is falsy such as `null`. A falsy body also takes an already shown record back to loading (`Details.FalsyBodyHidesRecord`). When the lookup answers with JSON that has no `volumeInfo`, such as an API error body, that body becomes `book` and rendering throws. `Render` shows this as the `Broken` screen.
- "Unknown Author" replaces the authors line only when the record has no authors array. An empty array joins to the empty string and shows nothing (`Details.AuthorsFallback`). The suggestion list instead falls back whenever the joined string is empty, and spells its fallback "Unknown Auther" as the code does.

## Model

| member | source | states |
|---|---|---|
| `Text.TrimEmptyIffBlank` | src/components/Main.jsx:42 | `value.trim() === ""` holds exactly when every character of the value is white space |
| `Text.ContainsIffOccurs` | src/components/Main.jsx:93 | the front-to-back `includes` search succeeds exactly when the needle occurs at some position of the text |
| `Text.JoinEmptyIff` | src/components/Main.jsx:64 | with a non-empty separator, `join` yields the empty (falsy) string exactly for no parts or one empty part |
| `Text.Lower` | src/components/Main.jsx:38 | `toLowerCase` keeps the length and maps each character on its own (ASCII letters to lower case) |
| `Text.IsWhitespace` | src/components/Main.jsx:42 | the characters `trim` removes, the ECMAScript WhiteSpace and LineTerminator set; what `trim` leaves is stated by `Text.TrimEmptyIffBlank` and `Catalog.SearchEnabledAfterTyping` |
| `Text.Trim` | src/components/Main.jsx:42 | `trim` drops leading and trailing ECMAScript white space; its meaning is stated by `Text.TrimEmptyIffBlank` |
| `Text.StartsWith` | src/components/Main.jsx:58 | `startsWith`: the text begins with the value; used by `Catalog.PrefixMatch` |
| `Text.Contains` | src/components/Main.jsx:93 | `includes`, searching from the front; its meaning is stated by `Text.ContainsIffOccurs` |
| `Text.Join` | src/components/Main.jsx:54 | `join`: the parts with the separator between each pair; when it is empty is stated by `Text.JoinEmptyIff` |
| `Text.Utf16Length` | src/components/BookDetails.jsx:87 | `length` counts UTF-16 code units: between one and two per character |
| `Text.Utf16LengthAppend` | src/components/BookDetails.jsx:87 | the code units of a concatenation add up |
| `Text.Utf16LengthBmp` | src/components/BookDetails.jsx:87 | for text inside the Basic Multilingual Plane, `length` equals the number of characters |
| `JsMap.FromEntriesSpec` | src/components/Main.jsx:68-69 | `new Map(entries)` holds each key once, exactly the keys of the entries, in order of first insertion, each with the value of its last entry |
| `JsMap.Set` | src/components/Main.jsx:69 | `map.set(key, value)`: overwrite in place when the key is present, append otherwise; what a fold of it holds is stated by `JsMap.FromEntriesSpec` |
| `JsMap.FromEntries` | src/components/Main.jsx:69 | `new Map(entries)`: `set` for each entry in turn, from an empty Map; stated by `JsMap.FromEntriesSpec` |
| `JsMap.Values` | src/components/Main.jsx:68-69 | `Array.from(map.values())`: one value per entry, in entry order |
| `JsMap.FromEntriesSize` | src/components/Main.jsx:68-69 | the Map has one entry per distinct key of the entries |
| `JsArray.Filter` | src/components/Main.jsx:52-59 | `filter`: never longer than its input; which elements it keeps is stated by `JsArray.KeptIndicesExact` and `JsArray.FilterMembers` |
| `JsArray.KeptIndices` | src/components/Main.jsx:52-59 | `filter` keeps elements at strictly increasing positions, in the input's order |
| `JsArray.KeptIndicesExact` | src/components/Main.jsx:90-94 | `filter` keeps a position exactly when its element satisfies the test |
| `JsArray.FilterMembers` | src/components/Main.jsx:80-82 | every kept element is an input element that passes the test, and every input element that passes is kept |
| `JsArray.Take` | src/components/Main.jsx:24 | `slice(0, n)` returns the first min(n, length) elements, all drawn from the input |
| `Books.Title` | src/components/Main.jsx:53 | `book.volumeInfo?.title`: the title, absent when the record has no `volumeInfo` or no title; used by `Catalog.TitleKey` and `Catalog.Project` |
| `Books.Authors` | src/components/Main.jsx:54 | `book.volumeInfo?.authors`: the authors array, absent when the record has no `volumeInfo` or no array; its fallback is stated by `Catalog.ProjectAuthors` |
| `Catalog.TitleKey` | src/components/Main.jsx:53 | `book.volumeInfo?.title?.toLowerCase() \|\| ""`: the lower-cased title, or empty when there is none |
| `Catalog.AuthorsKey` | src/components/Main.jsx:54 | `book.volumeInfo?.authors?.join(" ").toLowerCase() \|\| ""`: the space-joined lower-cased authors, or empty |
| `Catalog.PrefixMatch` | src/components/Main.jsx:58 | the suggestion test: title key or authors key starts with the typed value; `Catalog.MatchHasInfo` and `Catalog.SuggestionsFromBatch` state what it implies |
| `Catalog.SubstringMatch` | src/components/Main.jsx:91-93 | the search test: title key or authors key contains the value; stated by `Catalog.SearchResultsExact` |
| `Catalog.SameTitle` | src/components/Main.jsx:81 | the selection test: the lower-cased title equals the lower-cased chosen title; stated by `Catalog.TitleSelectionExact` |
| `Catalog.Project` | src/components/Main.jsx:62-65 | one suggestion from a record: its title and its authors line; stated by `Catalog.ProjectAuthors` |
| `Catalog.PrefixMatches` | src/components/Main.jsx:52-59 | the `filtered` array: the batch records passing the prefix test, in batch order; stated by `Catalog.SuggestionsFromBatch` and `JsArray.FilterMembers` |
| `Catalog.TitleEntries` | src/components/Main.jsx:62-69 | one entry per match, keyed by its title and holding its suggestion, in match order |
| `Catalog.MatchMap` | src/components/Main.jsx:62-69 | the Map built from the matches holds what `JsMap.FromEntriesSpec` promises, and each value carries its own key as title |
| `Catalog.Suggest` | src/components/Main.jsx:52-70 | the suggestion list for a non-blank value holds at most five entries; the lemmas `Catalog.Suggestions*` state which |
| `Catalog.SearchResults` | src/components/Main.jsx:88-94 | the grid after a search: the batch filtered by the lower-cased query; stated by `Catalog.SearchResultsExact` |
| `Catalog.TitleSelection` | src/components/Main.jsx:80-82 | the grid after choosing a title: the batch filtered by that title, ignoring case; stated by `Catalog.TitleSelectionExact` |
| `Catalog.ProjectAuthors` | src/components/Main.jsx:62-65 | a suggestion carries the record's title; its authors line is "Unknown Auther" exactly when the record has no authors array, an empty one or a single empty name, and otherwise the names joined with ", " |
| `Catalog.MatchHasInfo` | src/components/Main.jsx:53-63 | a record matched by a non-empty value has a `volumeInfo`, so reading `book.volumeInfo.title` for it cannot throw |
| `Catalog.SuggestionsFromMatches` | src/components/Main.jsx:62-70 | every suggestion is built from the last matching record with its title, because the Map keeps the last value set for a key |
| `Catalog.SuggestionsFromBatch` | src/components/Main.jsx:52-65 | every suggestion is built from a batch record whose lower-cased title or space-joined authors start with the typed value |
| `Catalog.SuggestionsDistinct` | src/components/Main.jsx:68-70 | no two suggestions have the same title (exact, case-sensitive comparison) |
| `Catalog.SuggestionsCount` | src/components/Main.jsx:68-70 | there are exactly min(5, number of distinct titles among the matches) suggestions |
| `Catalog.SuggestionsOrder` | src/components/Main.jsx:62-70 | suggestions appear in the order in which their titles first appear among the matches |
| `Catalog.SuggestionsOmitOnlyLater` | src/components/Main.jsx:68-70 | a matching title left out of the list first appears after every title that is shown |
| `Catalog.SearchFindsSuggested` | src/components/Main.jsx:52-59 | every record behind a suggestion for the typed text is also in the search results for that text |
| `Catalog.SearchResultsExact` | src/components/Main.jsx:87-94 | a batch record is in the search results exactly when the lower-cased query occurs in its lower-cased title or space-joined authors |
| `Catalog.TitleSelectionExact` | src/components/Main.jsx:80-82 | choosing a title keeps exactly the batch records whose title equals it, ignoring case |
| `Catalog.LowerKeepsBlank` | src/components/Main.jsx:38-42 | lower-casing the input neither makes a blank input non-blank nor the reverse |
| `Catalog.SearchEnabledAfterTyping` | src/components/Main.jsx:194 | after a keystroke the Search button is enabled exactly when the typed text is not blank |
| `Catalog.SearchView.Valid` | src/components/Main.jsx:5-8 | the invariant of the view state: every record in the grid is in the batch, and at most five suggestions are listed; established by the constructor and kept by every handler |
| `Catalog.SearchView.constructor` | src/components/Main.jsx:5-8 | the query, batch, grid and suggestions all start empty, and the invariant holds |
| `Catalog.SearchView.Shuffle` | src/components/Main.jsx:45 | sorting with a random comparator leaves the batch a permutation of itself |
| `Catalog.SearchView.ShowRandom` | src/components/Main.jsx:45-47 | the batch is permuted and the grid becomes its first min(4, size) records |
| `Catalog.SearchView.BatchLoaded` | src/components/Main.jsx:20-27 | the batch becomes a permutation of `data.items` (or of nothing when it is absent) and the grid its first four |
| `Catalog.SearchView.InputChange` | src/components/Main.jsx:37-73 | the query becomes the lower-cased input; on blank input the suggestions empty and the grid resets to four records of the permuted batch; otherwise batch and grid stay and the suggestions are those for the lower-cased input; afterwards search is enabled exactly when the input is not blank (Main.jsx:194) |
| `Catalog.SearchView.SuggestionClick` | src/components/Main.jsx:76-84 | the query becomes the chosen title as given, the suggestions empty, and the grid holds the records with that title, ignoring case, in batch order |
| `Catalog.SearchView.Search` | src/components/Main.jsx:87-98 | the grid holds the batch records matching the lower-cased query as a substring, in batch order, and the suggestions empty |
| `Catalog.SearchView.Clear` | src/components/Main.jsx:101-106 | the query and suggestions empty; the batch is permuted and the grid shows its first four |
| `Catalog.SearchView.SearchEnabled` | src/components/Main.jsx:194 | the Search button is enabled when the trimmed query is not empty; after a keystroke this is stated by `Catalog.SearchEnabledAfterTyping` |
| `Catalog.SearchView.ClearShown` | src/components/Main.jsx:144 | the clear button is shown when the query is not empty |
| `Details.IsTag` | src/components/BookDetails.jsx:33 | one match of `<[^>]+>`: a `<`, one or more characters other than `>`, then `>`; what stripping does with it is stated by `Details.StripTagsDropsTag` and `Details.TagFreeHasNoTag` |
| `Details.StripTags` | src/components/BookDetails.jsx:33 | removing tags never makes the text longer |
| `Details.StripTagsChars` | src/components/BookDetails.jsx:33 | stripping keeps only characters of its input |
| `Details.StripTagsTagFree` | src/components/BookDetails.jsx:33 | after stripping, every `<` with a `>` after it is directly followed by `>` |
| `Details.TagFreeHasNoTag` | src/components/BookDetails.jsx:33 | such text holds no `<`, then one or more characters other than `>`, then `>` |
| `Details.StripTagsFixesTagFree` | src/components/BookDetails.jsx:33 | text already free of tags is returned unchanged |
| `Details.NoAngleUnchanged` | src/components/BookDetails.jsx:33 | text without `<` is returned unchanged |
| `Details.StripTagsIdempotent` | src/components/BookDetails.jsx:33 | stripping a stripped description changes nothing |
| `Details.StripTagsKeepsPlainPrefix` | src/components/BookDetails.jsx:33 | text before the first `<` is kept as it is, followed by the stripped rest |
| `Details.StripTagsDropsTag` | src/components/BookDetails.jsx:33 | a `<[^>]+>` span at the front is removed whole, and the scan resumes right after its `>` |
| `Details.StripTagsKeepsLoneAngle` | src/components/BookDetails.jsx:33 | a `<` that opens no tag is kept, and the scan goes on with the next character |
| `Details.StripTagsCodeUnits` | src/components/BookDetails.jsx:33 | stripping never adds UTF-16 code units |
| `Details.DescriptionText` | src/components/BookDetails.jsx:32-34 | the stripped description, or the placeholder when it is missing or empty; stated by `Details.MissingDescription` and `Details.PresentDescription` |
| `Details.ShowsToggle` | src/components/BookDetails.jsx:87 | the toggle is rendered when the description is more than 80 UTF-16 code units long |
| `Details.MissingDescription` | src/components/BookDetails.jsx:32-34 | a missing or empty description shows the 39-character placeholder, too short for the toggle |
| `Details.PresentDescription` | src/components/BookDetails.jsx:87-94 | a non-empty description shows with no tag left and is no longer than the original; the toggle appears only if the original exceeded 80 UTF-16 code units |
| `Details.AuthorsLine` | src/components/BookDetails.jsx:63 | the authors joined with ", ", or "Unknown Author" without an array; stated by `Details.AuthorsFallback` |
| `Details.OrNotAvailable` | src/components/BookDetails.jsx:67-71 | a text field, or "N/A" when it is missing or empty; stated by `Details.TextFallbacks` |
| `Details.IntToString` | src/components/BookDetails.jsx:75 | a page count rendered as decimal digits, with a minus sign when negative; its digits read back as the count by `Details.NatToStringValue` |
| `Details.PageCountLine` | src/components/BookDetails.jsx:75 | the page count's digits, or "N/A" when it is missing or 0; stated by `Details.PageCountFallback` |
| `Details.ImageSource` | src/components/BookDetails.jsx:49-52 | the thumbnail link, or the 200x300 placeholder image when it is missing or empty |
| `Details.ImageFallback` | src/components/BookDetails.jsx:49-52 | an image link is always given: the placeholder exactly when the thumbnail link is missing, empty or is the placeholder itself |
| `Details.TextFallbacks` | src/components/BookDetails.jsx:66-72 | the publisher and date lines are never empty: "N/A" stands for a missing or empty value |
| `Details.PageCountFallback` | src/components/BookDetails.jsx:74-76 | "N/A" shows exactly when the page count is missing or 0; a positive count shows as digits that read back as the count |
| `Details.NatToString` | src/components/BookDetails.jsx:75 | a count renders as a non-empty string of decimal digits |
| `Details.NatToStringValue` | src/components/BookDetails.jsx:75 | the rendered digits read back as the number itself |
| `Details.AuthorsFallback` | src/components/BookDetails.jsx:61-64 | "Unknown Author" shows only without an authors array; with an array, the line is empty exactly for `[]` or `[""]` |
| `Details.Render` | src/components/BookDetails.jsx:27-94 | the page shows the loading text exactly while no record has arrived; the description is clamped exactly while not expanded; the toggle shows exactly when the shown description exceeds 80 UTF-16 code units, reading "Show Less" when expanded and "Read More" otherwise |
| `Details.DetailView.View` | src/components/BookDetails.jsx:27-94 | what the view shows for its current record and toggle state, as `Details.Render` |
| `Details.DetailView.constructor` | src/components/BookDetails.jsx:7-8 | no record yet, description collapsed |
| `Details.DetailView.FetchSettled` | src/components/BookDetails.jsx:12-22 | a throwing fetch changes nothing; a falsy body (`null`, `false`, `0`, `""`) clears the record, so the page shows loading; any other body becomes the record, so the page no longer shows loading |
| `Details.DetailView.ToggleExpanded` | src/components/BookDetails.jsx:89 | each click negates `isExpanded` |
| `Details.ToggleTwice` | src/components/BookDetails.jsx:89 | two clicks restore both the state and what is shown |
| `Details.FailedFetchKeepsLoading` | src/components/BookDetails.jsx:20-29 | a view whose only fetch throws keeps showing the loading text |
| `Details.FalsyBodyHidesRecord` | src/components/BookDetails.jsx:17-29 | a shown record followed by a fetch whose body is falsy goes back to the loading text |
| `Scenarios.DuneSuggestions` | src/components/Main.jsx:52-70 | typing "dune" over "Dune" and "Dune Messiah" by Frank Herbert suggests both titles, in that order, each with "Frank Herbert" |
| `Scenarios.DuneSearch` | src/components/Main.jsx:87-94 | searching "dune" over the same batch finds both records |
| `Scenarios.StripBold` | src/components/BookDetails.jsx:33 | `<b>Hi</b>` shows as `Hi` |
| `Scenarios.KeepLoneAngles` | src/components/BookDetails.jsx:33 | a `<` right before `>`, or with no `>` after it, is kept |
| `Scenarios.WideCharacterToggle` | src/components/BookDetails.jsx:87 | 79 plain characters and one emoji are 80 characters but 81 code units, so the toggle shows |

## Left out

- Network and JSON I/O (`fetch`, `response.json()`, the `useEffect` mount logic, `console.error`): the fetched batch and the fetched record are inputs to `BatchLoaded` and `FetchSettled`. A failed catalog fetch changes nothing, so it has no method.
- `Math.random`: the random-comparator sort is an arbitrary permutation of the batch. No distribution is modelled.
- Text.Lower: lower-cases only the ASCII letters A to Z, not the full Unicode mapping of `toLowerCase`.
- Catalog.SearchView.SuggestionClick: requires every batch record to have a title. The source throws a TypeError at `book.volumeInfo.title.toLowerCase()` otherwise, and exceptions are not modelled.
- JSX rendering, Tailwind classes, the grid cards and the hover handlers are UI only. The detail page is modelled only as far as the text `Render` shows and the clamp flag.
- Navigation (`navigate`, `useParams`, the Back button, the route table in `src/App.jsx`): thin configuration over react-router, with no logic of the repository's own.
- A fetch that completes after its view is gone, and a new `id` whose record arrives after the old one is shown: these are async scheduling, not modellable here. A change of `id` does not clear `book` by itself; only a settled fetch with a falsy body does, as `FetchSettled` states.
- React batches state updates and re-renders between events. Each handler is modelled as one atomic update of the view state.
- Details.PageCountFallback: page counts are integers; `NaN` and fractional counts are not modelled.
