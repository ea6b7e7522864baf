/**
 * The catalog view of `src/components/Main.jsx`: live suggestions while the
 * user types, the search, the selection of a suggestion and the reset to four
 * random records, all over the batch of records fetched when the view mounts.
 */
module Catalog {
  import opened Wrappers
  import opened Text
  import opened JsMap
  import opened JsArray
  import opened Books

  /** One line of the suggestion list: a title and its authors. */
  datatype Suggestion = Suggestion(title: Option<string>, authors: string)

  /** At most this many suggestions are shown. */
  const SuggestionLimit: nat := 5

  /** The grid shows this many records after a reset. */
  const RandomCount: nat := 4

  /** The authors line of a suggestion without author names (spelled as in the view). */
  const UnknownAuther: string := "Unknown Auther"

  /** `book.volumeInfo?.title?.toLowerCase() || ""`. */
  function TitleKey(b: Volume): string
  {
    match Title(b)
    case None => ""
    case Some(t) => Lower(t)
  }

  /** `book.volumeInfo?.authors?.join(" ").toLowerCase() || ""`. */
  function AuthorsKey(b: Volume): string
  {
    match Authors(b)
    case None => ""
    case Some(a) => Lower(Join(a, " "))
  }

  /** The suggestion test: the title or the authors start with the typed value. */
  predicate PrefixMatch(value: string, b: Volume)
  {
    StartsWith(TitleKey(b), value) || StartsWith(AuthorsKey(b), value)
  }

  /** The search test: the title or the authors contain the lower-cased query. */
  predicate SubstringMatch(value: string, b: Volume)
  {
    Contains(TitleKey(b), value) || Contains(AuthorsKey(b), value)
  }

  /** The selection test: the title equals the chosen one, ignoring case. */
  predicate SameTitle(title: string, b: Volume)
  {
    TitleKey(b) == Lower(title)
  }

  /** `{ title: book.volumeInfo.title, authors: book.volumeInfo.authors?.join(", ") || "Unknown Auther" }`. */
  function Project(b: Volume): Suggestion
  {
    var joined := if Authors(b).Some? then Join(Authors(b).value, ", ") else "";
    Suggestion(Title(b), if joined == "" then UnknownAuther else joined)
  }

  /** The records the suggestions are drawn from, in batch order. */
  function PrefixMatches(books: seq<Volume>, value: string): seq<Volume>
  {
    Filter(books, b => PrefixMatch(value, b))
  }

  /** `suggestionData.map((item) => [item.title, item])`. */
  function TitleEntries(ms: seq<Volume>): (es: seq<(Option<string>, Suggestion)>)
    ensures |es| == |ms|
    ensures forall i :: 0 <= i < |ms| ==> es[i] == (Title(ms[i]), Project(ms[i]))
  {
    seq(|ms|, i requires 0 <= i < |ms| => (Project(ms[i]).title, Project(ms[i])))
  }

  /** The suggestion list for a non-blank typed value. */
  function Suggest(books: seq<Volume>, value: string): (r: seq<Suggestion>)
    ensures |r| <= SuggestionLimit
  {
    Take(Values(FromEntries(TitleEntries(PrefixMatches(books, value)))), SuggestionLimit)
  }

  /** The grid after a search for `query`. */
  function SearchResults(books: seq<Volume>, query: string): seq<Volume>
  {
    Filter(books, b => SubstringMatch(Lower(query), b))
  }

  /** The grid after choosing the suggestion titled `title`. */
  function TitleSelection(books: seq<Volume>, title: string): seq<Volume>
  {
    Filter(books, b => SameTitle(title, b))
  }

  /** The titles found among `ms`, each once. */
  function DistinctTitles(ms: seq<Volume>): set<Option<string>>
  {
    set i | 0 <= i < |ms| :: Title(ms[i])
  }

  /** The position of the first record of `ms` titled `t`: `JsMap.IndexOfKey` over the title entries, stated for the records. */
  function FirstWithTitle(ms: seq<Volume>, t: Option<string>): (r: Option<nat>)
    ensures r.Some? ==> r.value < |ms| && Title(ms[r.value]) == t
    ensures r.Some? ==> forall j :: 0 <= j < r.value ==> Title(ms[j]) != t
    ensures r.None? <==> forall j :: 0 <= j < |ms| ==> Title(ms[j]) != t
  {
    IndexOfKey(TitleEntries(ms), t)
  }

  /** Some suggestion of `r` is titled `t`. */
  predicate Shown(r: seq<Suggestion>, t: Option<string>)
  {
    exists i :: 0 <= i < |r| && r[i].title == t
  }

  /** The authors line of a suggestion falls back exactly when no author name would show. */
  lemma ProjectAuthors(b: Volume)
    ensures Project(b).title == Title(b)
    ensures Project(b).authors ==
      if Authors(b).None? || Authors(b).value == [] || Authors(b).value == [""] then UnknownAuther
      else Join(Authors(b).value, ", ")
  {
    if Authors(b).Some? {
      JoinEmptyIff(Authors(b).value, ", ");
    }
  }

  /** A record matched by a non-empty value has a `volumeInfo`, so building its suggestion cannot fail. */
  lemma MatchHasInfo(value: string, b: Volume)
    requires value != "" && PrefixMatch(value, b)
    ensures b.volumeInfo.Some?
  {
  }

  /** The Map built from the matches, and the title each of its values carries. */
  lemma MatchMap(ms: seq<Volume>)
    ensures Describes(FromEntries(TitleEntries(ms)), TitleEntries(ms))
    ensures forall i :: 0 <= i < |FromEntries(TitleEntries(ms))| ==>
      FromEntries(TitleEntries(ms))[i].1.title == FromEntries(TitleEntries(ms))[i].0
  {
    var es := TitleEntries(ms);
    var m := FromEntries(es);
    FromEntriesSpec(es);
    forall i | 0 <= i < |m| ensures m[i].1.title == m[i].0 {
      assert LastValue(es, m[i].0) == Some(m[i].1);
    }
  }

  /** `s` is built from the last record of `ms` that carries its title. */
  predicate BuiltFromLast(ms: seq<Volume>, s: Suggestion)
  {
    exists j :: 0 <= j < |ms| && Project(ms[j]) == s
      && forall j' :: j < j' < |ms| ==> Title(ms[j']) != s.title
  }

  /** Every suggestion is the one built from the LAST matching record with its title. */
  lemma SuggestionsFromMatches(books: seq<Volume>, value: string)
    ensures forall i :: 0 <= i < |Suggest(books, value)| ==>
      BuiltFromLast(PrefixMatches(books, value), Suggest(books, value)[i])
  {
    var ms := PrefixMatches(books, value);
    var es := TitleEntries(ms);
    var m := FromEntries(es);
    var r := Suggest(books, value);
    MatchMap(ms);
    forall i | 0 <= i < |r| ensures BuiltFromLast(ms, r[i]) {
      assert r[i] == m[i].1;
      assert LastValue(es, m[i].0) == Some(m[i].1);
      var j :| 0 <= j < |es| && es[j] == (m[i].0, m[i].1) && forall j' :: j < j' < |es| ==> es[j'].0 != m[i].0;
      assert Project(ms[j]) == r[i];
      assert m[i].0 == r[i].title;
      forall j' | j < j' < |ms| ensures Title(ms[j']) != r[i].title {
        assert es[j'].0 == Title(ms[j']);
      }
    }
  }

  /** `s` is built from a record of the batch that matches the typed value. */
  predicate BuiltFromBatch(books: seq<Volume>, value: string, s: Suggestion)
  {
    exists k :: 0 <= k < |books| && PrefixMatch(value, books[k]) && Project(books[k]) == s
  }

  /** The record behind every suggestion is in the batch and matches the typed value. */
  lemma SuggestionsFromBatch(books: seq<Volume>, value: string)
    ensures forall i :: 0 <= i < |Suggest(books, value)| ==> BuiltFromBatch(books, value, Suggest(books, value)[i])
  {
    var ms := PrefixMatches(books, value);
    SuggestionsFromMatches(books, value);
    FilterMembers(books, b => PrefixMatch(value, b));
    forall i | 0 <= i < |Suggest(books, value)| ensures BuiltFromBatch(books, value, Suggest(books, value)[i]) {
      assert BuiltFromLast(ms, Suggest(books, value)[i]);
      var j :| 0 <= j < |ms| && Project(ms[j]) == Suggest(books, value)[i];
      assert ms[j] in ms;
      var k :| 0 <= k < |books| && books[k] == ms[j];
      assert PrefixMatch(value, books[k]);
    }
  }

  /** No two suggestions share a title (compared exactly, case-sensitively). */
  lemma SuggestionsDistinct(books: seq<Volume>, value: string)
    ensures forall i, j :: 0 <= i < j < |Suggest(books, value)| ==>
      Suggest(books, value)[i].title != Suggest(books, value)[j].title
  {
    var m := FromEntries(TitleEntries(PrefixMatches(books, value)));
    MatchMap(PrefixMatches(books, value));
    assert forall i :: 0 <= i < |Suggest(books, value)| ==> Suggest(books, value)[i] == m[i].1;
  }

  /** There are five suggestions, or as many as the distinct titles of the matches if fewer. */
  lemma SuggestionsCount(books: seq<Volume>, value: string)
    ensures |Suggest(books, value)| == Min(SuggestionLimit, |DistinctTitles(PrefixMatches(books, value))|)
  {
    var ms := PrefixMatches(books, value);
    var es := TitleEntries(ms);
    FromEntriesSize(es);
    assert KeySet(es) == DistinctTitles(ms) by {
      forall t ensures t in KeySet(es) <==> t in DistinctTitles(ms) {
        if t in KeySet(es) {
          var i :| 0 <= i < |es| && es[i].0 == t;
          assert Title(ms[i]) == t;
        }
        if t in DistinctTitles(ms) {
          var i :| 0 <= i < |ms| && Title(ms[i]) == t;
          assert es[i].0 == t;
        }
      }
    }
  }

  /** The suggestions follow the order in which their titles first appear among the matches. */
  lemma SuggestionsOrder(books: seq<Volume>, value: string)
    ensures forall i :: 0 <= i < |Suggest(books, value)| ==>
      FirstWithTitle(PrefixMatches(books, value), Suggest(books, value)[i].title).Some?
    ensures forall i, j :: 0 <= i < j < |Suggest(books, value)| ==>
      FirstWithTitle(PrefixMatches(books, value), Suggest(books, value)[i].title).value
        < FirstWithTitle(PrefixMatches(books, value), Suggest(books, value)[j].title).value
  {
    var ms := PrefixMatches(books, value);
    var es := TitleEntries(ms);
    var m := FromEntries(es);
    var r := Suggest(books, value);
    MatchMap(ms);
    assert forall i :: 0 <= i < |r| ==> r[i] == m[i].1 && r[i].title == m[i].0;
    forall i | 0 <= i < |r| ensures FirstWithTitle(ms, r[i].title) == IndexOfKey(es, m[i].0) {
    }
  }

  /** Every title shown in `r` first appears among `ms` before `t` does. */
  predicate ShownFirstBefore(ms: seq<Volume>, r: seq<Suggestion>, t: Option<string>)
  {
    forall i :: 0 <= i < |r| ==>
      && FirstWithTitle(ms, r[i].title).Some?
      && FirstWithTitle(ms, t).Some?
      && FirstWithTitle(ms, r[i].title).value < FirstWithTitle(ms, t).value
  }

  /** The title of the `k`-th match, when it is not suggested, first appears after every suggested one. */
  lemma OmittedAfterShown(books: seq<Volume>, value: string, k: nat)
    requires k < |PrefixMatches(books, value)|
    requires !Shown(Suggest(books, value), Title(PrefixMatches(books, value)[k]))
    ensures ShownFirstBefore(PrefixMatches(books, value), Suggest(books, value), Title(PrefixMatches(books, value)[k]))
  {
    var ms := PrefixMatches(books, value);
    var es := TitleEntries(ms);
    var m := FromEntries(es);
    var r := Suggest(books, value);
    var t := Title(ms[k]);
    MatchMap(ms);
    assert forall i :: 0 <= i < |r| ==> r[i] == m[i].1 && r[i].title == m[i].0;
    assert es[k].0 == t;
    var p := IndexOfKey(m, es[k].0).value;
    assert m[p].0 == t;
    forall i | 0 <= i < |r|
      ensures FirstWithTitle(ms, r[i].title).Some? && FirstWithTitle(ms, t).Some?
      ensures FirstWithTitle(ms, r[i].title).value < FirstWithTitle(ms, t).value
    {
      assert IndexOfKey(es, m[i].0).value < IndexOfKey(es, m[p].0).value;
    }
  }

  /** A matching title that is not suggested first appears after every suggested one. */
  lemma SuggestionsOmitOnlyLater(books: seq<Volume>, value: string)
    ensures forall k :: 0 <= k < |PrefixMatches(books, value)| ==>
      || Shown(Suggest(books, value), Title(PrefixMatches(books, value)[k]))
      || ShownFirstBefore(PrefixMatches(books, value), Suggest(books, value), Title(PrefixMatches(books, value)[k]))
  {
    forall k | 0 <= k < |PrefixMatches(books, value)| && !Shown(Suggest(books, value), Title(PrefixMatches(books, value)[k])) {
      OmittedAfterShown(books, value, k);
    }
  }

  /** Every record behind a suggestion is found again by a search for the same text. */
  lemma SearchFindsSuggested(books: seq<Volume>, input: string)
    ensures forall b :: b in PrefixMatches(books, Lower(input)) ==> b in SearchResults(books, Lower(input))
  {
    LowerIdempotent(input);
    FilterMembers(books, b => PrefixMatch(Lower(input), b));
    FilterMembers(books, b => SubstringMatch(Lower(Lower(input)), b));
    forall b | b in PrefixMatches(books, Lower(input)) ensures b in SearchResults(books, Lower(input)) {
      var i :| 0 <= i < |books| && books[i] == b;
      if StartsWith(TitleKey(b), Lower(input)) {
        StartsWithContains(TitleKey(b), Lower(input));
      } else {
        StartsWithContains(AuthorsKey(b), Lower(input));
      }
    }
  }

  /**
   * The search keeps exactly the records whose lower-cased title or authors
   * contain the lower-cased query somewhere, in batch order.
   */
  lemma SearchResultsExact(books: seq<Volume>, query: string)
    ensures forall i :: 0 <= i < |books| ==>
      (books[i] in SearchResults(books, query) <==>
        (exists k: nat :: OccursAt(TitleKey(books[i]), Lower(query), k))
        || (exists k: nat :: OccursAt(AuthorsKey(books[i]), Lower(query), k)))
  {
    var p := b => SubstringMatch(Lower(query), b);
    FilterMembers(books, p);
    forall i | 0 <= i < |books|
      ensures books[i] in SearchResults(books, query) <==> p(books[i])
      ensures p(books[i]) <==>
        (exists k: nat :: OccursAt(TitleKey(books[i]), Lower(query), k))
        || (exists k: nat :: OccursAt(AuthorsKey(books[i]), Lower(query), k))
    {
      ContainsIffOccurs(TitleKey(books[i]), Lower(query));
      ContainsIffOccurs(AuthorsKey(books[i]), Lower(query));
    }
  }

  /** Choosing a title keeps exactly the records with that title, ignoring case. */
  lemma TitleSelectionExact(books: seq<Volume>, title: string)
    requires forall b :: b in books ==> Title(b).Some?
    ensures forall b :: b in TitleSelection(books, title) ==> b in books && Lower(Title(b).value) == Lower(title)
    ensures forall b :: b in books && Lower(Title(b).value) == Lower(title) ==> b in TitleSelection(books, title)
  {
    FilterMembers(books, b => SameTitle(title, b));
  }

  /** The view state of the catalog: the four state hooks of the component. */
  class SearchView {
    var query: string
    var books: seq<Volume>
    var filteredBooks: seq<Volume>
    var suggestions: seq<Suggestion>

    /** The grid shows only records of the batch, and at most five suggestions are listed. */
    ghost predicate Valid()
      reads this
    {
      && (forall b :: b in filteredBooks ==> b in books)
      && |suggestions| <= SuggestionLimit
    }

    /** Every hook starts empty. */
    constructor ()
      ensures query == "" && books == [] && filteredBooks == [] && suggestions == []
      ensures Valid()
    {
      query, books, filteredBooks, suggestions := "", [], [], [];
    }

    /** `books.sort(() => Math.random() - 0.5)`: the batch reordered in place, in no predictable order. */
    method Shuffle()
      requires Valid()
      modifies this`books
      ensures multiset(books) == multiset(old(books))
      ensures Valid()
    {
      var shuffled :| multiset(shuffled) == multiset(books);
      forall b | b in books ensures b in shuffled {
        assert b in multiset(books);
      }
      books := shuffled;
    }

    /** Shuffle the batch and show its first four records. */
    method ShowRandom()
      requires Valid()
      modifies this`books, this`filteredBooks
      ensures multiset(books) == multiset(old(books))
      ensures filteredBooks == Take(books, RandomCount)
      ensures Valid()
    {
      Shuffle();
      filteredBooks := Take(books, RandomCount);
    }

    /** The fetch succeeded with the body `data`: keep `data.items || []`, show four of them. */
    method BatchLoaded(items: Option<seq<Volume>>)
      requires Valid()
      modifies this`books, this`filteredBooks
      ensures multiset(books) == multiset(if items.Some? then items.value else [])
      ensures filteredBooks == Take(books, RandomCount)
      ensures Valid()
    {
      var fetched := if items.Some? then items.value else [];
      var shuffled :| multiset(shuffled) == multiset(fetched);
      books := shuffled;
      filteredBooks := Take(books, RandomCount);
      forall b | b in filteredBooks ensures b in books {
        assert b in multiset(filteredBooks);
      }
    }

    /** A keystroke: the input box now holds `input`. */
    method InputChange(input: string)
      requires Valid()
      modifies this`query, this`books, this`filteredBooks, this`suggestions
      ensures Valid()
      ensures query == Lower(input)
      ensures SearchEnabled() <==> !IsBlank(input)
      ensures IsBlank(input) ==>
        && suggestions == []
        && multiset(books) == multiset(old(books))
        && filteredBooks == Take(books, RandomCount)
      ensures !IsBlank(input) ==>
        && suggestions == Suggest(old(books), Lower(input))
        && books == old(books)
        && filteredBooks == old(filteredBooks)
    {
      var value := Lower(input);
      query := value;
      TrimEmptyIffBlank(value);
      LowerKeepsBlank(input);
      if Trim(value) == "" {
        suggestions := [];
        ShowRandom();
        return;
      }
      suggestions := Suggest(books, value);
    }

    /** The suggestion titled `title` is clicked. */
    method SuggestionClick(title: string)
      requires Valid()
      requires forall b :: b in books ==> Title(b).Some?
      modifies this`query, this`suggestions, this`filteredBooks
      ensures query == title && suggestions == []
      ensures filteredBooks == TitleSelection(books, title)
      ensures Valid()
    {
      FilterMembers(books, b => SameTitle(title, b));
      query := title;
      suggestions := [];
      filteredBooks := TitleSelection(books, title);
    }

    /** The Search button is pressed. */
    method Search()
      requires Valid()
      modifies this`filteredBooks, this`suggestions
      ensures filteredBooks == SearchResults(books, query)
      ensures suggestions == []
      ensures Valid()
    {
      var searchValue := Lower(query);
      FilterMembers(books, b => SubstringMatch(searchValue, b));
      filteredBooks := Filter(books, b => SubstringMatch(searchValue, b));
      suggestions := [];
    }

    /** The clear button is pressed. */
    method Clear()
      requires Valid()
      modifies this`query, this`books, this`filteredBooks, this`suggestions
      ensures query == "" && suggestions == []
      ensures multiset(books) == multiset(old(books))
      ensures filteredBooks == Take(books, RandomCount)
      ensures Valid()
    {
      query := "";
      suggestions := [];
      ShowRandom();
    }

    /** The Search button is enabled: `query.trim()` is not empty. */
    predicate SearchEnabled()
      reads this
    {
      Trim(query) != ""
    }

    /** The clear button is shown: `query` is not empty. */
    predicate ClearShown()
      reads this
    {
      query != ""
    }
  }

  /** Lower-casing neither adds nor removes white space. */
  lemma LowerKeepsBlank(s: string)
    ensures IsBlank(Lower(s)) <==> IsBlank(s)
  {
    assert forall i :: 0 <= i < |s| ==> (IsWhitespace(Lower(s)[i]) <==> IsWhitespace(s[i]));
  }

  /** After a keystroke, Search is enabled exactly when the typed text is not blank. */
  lemma SearchEnabledAfterTyping(input: string)
    ensures Trim(Lower(input)) != "" <==> !IsBlank(input)
  {
    TrimEmptyIffBlank(Lower(input));
    LowerKeepsBlank(input);
  }
}
