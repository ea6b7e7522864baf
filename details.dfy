/**
 * The detail view of `src/components/BookDetails.jsx`: the description with
 * its markup removed, the placeholders for missing fields, the Read More /
 * Show Less toggle, and the two pieces of view state.
 */
module Details {
  import opened Wrappers
  import opened Text
  import opened Books

  const NoDescription: string := "No description available for this book."
  const UnknownAuthor: string := "Unknown Author"
  const NotAvailable: string := "N/A"
  const NoImage: string := "https://via.placeholder.com/200x300?text=No+Image"

  /** The toggle is offered for descriptions longer than this. */
  const ClampLength: nat := 80

  /**
   * Index of the first `c` in `s`: the search the pattern `<[^>]+>` makes for
   * the `>` that closes a tag. It scans characters of a string, where
   * `JsMap.IndexOfKey` scans keys of Map entries, so the two stay separate.
   */
  function IndexOf(s: string, c: char): (r: Option<nat>)
    ensures r.Some? ==> r.value < |s| && s[r.value] == c
    ensures r.Some? ==> forall j :: 0 <= j < r.value ==> s[j] != c
    ensures r.None? ==> c !in s
  {
    if |s| == 0 then None
    else if s[0] == c then Some(0)
    else match IndexOf(s[1..], c)
      case None => None
      case Some(k) => Some(k + 1)
  }

  /**
   * `s.replace(/<[^>]+>/g, "")`. Scanning from the left, a `<` whose next
   * `>` comes at least two places later opens a tag: the text from that `<`
   * through that `>` is dropped and the scan resumes after it. Any other
   * character, including a `<` with no `>` after it or right before one, is kept.
   */
  function StripTags(s: string): (r: string)
    ensures |r| <= |s|
    decreases |s|
  {
    if |s| == 0 then ""
    else if s[0] == '<' then
      match IndexOf(s[1..], '>')
      case Some(k) => if k >= 1 then StripTags(s[k + 2..]) else [s[0]] + StripTags(s[1..])
      case None => [s[0]] + StripTags(s[1..])
    else [s[0]] + StripTags(s[1..])
  }

  /** `<` at `i`, `>` at `j`, at least one character between and no `>` among them: the pattern `<[^>]+>`. */
  predicate IsTag(r: string, i: nat, j: nat)
  {
    && i + 2 <= j < |r|
    && r[i] == '<' && r[j] == '>'
    && forall m :: i < m < j ==> r[m] != '>'
  }

  /** Every `<` that has a `>` somewhere after it is directly followed by one. */
  predicate TagFree(r: string)
  {
    forall i, j :: 0 <= i < j < |r| && r[i] == '<' && r[j] == '>' ==> r[i + 1] == '>'
  }

  /** A tag-free string holds no match of `<[^>]+>`. */
  lemma TagFreeHasNoTag(r: string)
    requires TagFree(r)
    ensures forall i: nat, j: nat :: !IsTag(r, i, j)
  {
    forall i: nat, j: nat ensures !IsTag(r, i, j) {
      if i + 2 <= j < |r| && r[i] == '<' && r[j] == '>' {
        assert r[i + 1] == '>';
      }
    }
  }

  /** Stripping keeps only characters of its input. */
  lemma {:induction false} StripTagsChars(s: string)
    ensures forall c :: c in StripTags(s) ==> c in s
  {
    if |s| > 0 {
      StripTagsChars(s[1..]);
      if s[0] == '<' {
        match IndexOf(s[1..], '>')
        case Some(k) =>
          if k >= 1 {
            StripTagsChars(s[k + 2..]);
            assert forall c :: c in s[k + 2..] ==> c in s;
          }
        case None =>
      }
    }
  }

  /** What is left after stripping holds no tag. */
  lemma {:induction false} StripTagsTagFree(s: string)
    ensures TagFree(StripTags(s))
  {
    if |s| > 0 {
      var r := StripTags(s);
      StripTagsTagFree(s[1..]);
      var rest := StripTags(s[1..]);
      if s[0] != '<' {
        assert r == [s[0]] + rest;
      } else {
        match IndexOf(s[1..], '>')
        case Some(k) =>
          if k >= 1 {
            StripTagsTagFree(s[k + 2..]);
          } else {
            assert r == [s[0]] + rest;
            assert s[1] == '>';
            assert rest[0] == '>';
          }
        case None =>
          assert r == [s[0]] + rest;
          StripTagsChars(s[1..]);
          assert '>' !in rest;
      }
    }
  }

  /** A tag-free string is left as it is. */
  lemma {:induction false} StripTagsFixesTagFree(s: string)
    requires TagFree(s)
    ensures StripTags(s) == s
  {
    if |s| > 0 {
      assert TagFree(s[1..]) by {
        forall i, j | 0 <= i < j < |s[1..]| && s[1..][i] == '<' && s[1..][j] == '>' ensures s[1..][i + 1] == '>' {
          assert s[i + 1] == '<' && s[j + 1] == '>';
        }
      }
      StripTagsFixesTagFree(s[1..]);
      if s[0] == '<' {
        match IndexOf(s[1..], '>')
        case Some(k) =>
          assert s[k + 1] == '>';
          assert s[1] == '>';
        case None =>
      }
    }
  }

  /** Text with no `<` in it is shown unchanged. */
  lemma NoAngleUnchanged(s: string)
    requires '<' !in s
    ensures StripTags(s) == s
  {
    StripTagsFixesTagFree(s);
  }

  /** Stripping twice is stripping once. */
  lemma StripTagsIdempotent(s: string)
    ensures StripTags(StripTags(s)) == StripTags(s)
  {
    StripTagsTagFree(s);
    StripTagsFixesTagFree(StripTags(s));
  }

  /** Stripping never makes the text longer in UTF-16 code units either. */
  lemma {:induction false} StripTagsCodeUnits(s: string)
    ensures Utf16Length(StripTags(s)) <= Utf16Length(s)
    decreases |s|
  {
    if |s| > 0 {
      StripTagsCodeUnits(s[1..]);
      Utf16LengthAppend([s[0]], StripTags(s[1..]));
      if s[0] == '<' {
        match IndexOf(s[1..], '>')
        case Some(k) =>
          if k >= 1 {
            StripTagsCodeUnits(s[k + 2..]);
            Utf16LengthSuffix(s, k + 2);
          }
        case None =>
      }
    }
  }

  /** Text before the first `<` is kept as it is. */
  lemma {:induction false} StripTagsKeepsPlainPrefix(a: string, b: string)
    requires '<' !in a
    ensures StripTags(a + b) == a + StripTags(b)
  {
    if |a| == 0 {
      assert a + b == b;
    } else {
      assert (a + b)[1..] == a[1..] + b;
      StripTagsKeepsPlainPrefix(a[1..], b);
    }
  }

  /** The first `>` after an opening `<`, when at least two places on, closes a tag. */
  lemma OpeningTag(s: string)
    ensures |s| > 0 && s[0] == '<' && IndexOf(s[1..], '>').Some? && IndexOf(s[1..], '>').value >= 1
      ==> IsTag(s, 0, IndexOf(s[1..], '>').value + 1)
  {
  }

  /** A tag at the front is removed whole, and nothing after it. */
  lemma StripTagsDropsTag(s: string, j: nat)
    requires IsTag(s, 0, j)
    ensures StripTags(s) == StripTags(s[j + 1..])
  {
    assert s[1..][j - 1] == '>';
    var k := IndexOf(s[1..], '>').value;
    assert k == j - 1 by {
      assert forall m :: 0 <= m < j - 1 ==> s[1..][m] == s[m + 1];
    }
  }

  /** A `<` that opens no tag is kept, and the scan goes on right after it. */
  lemma StripTagsKeepsLoneAngle(s: string)
    requires |s| > 0 && s[0] == '<'
    requires forall j: nat :: !IsTag(s, 0, j)
    ensures StripTags(s) == "<" + StripTags(s[1..])
  {
    OpeningTag(s);
  }

  /** `info.description ? info.description.replace(/<[^>]+>/g, "") : "No description available for this book."`. */
  function DescriptionText(info: VolumeInfo): string
  {
    if info.description.Some? && info.description.value != "" then StripTags(info.description.value)
    else NoDescription
  }

  /** `description.length > 80`, counting UTF-16 code units: the Read More / Show Less button is rendered. */
  predicate ShowsToggle(description: string)
  {
    Utf16Length(description) > ClampLength
  }

  /** With no description, or an empty one, the placeholder shows and no toggle does. */
  lemma MissingDescription(info: VolumeInfo)
    requires info.description.None? || info.description == Some("")
    ensures DescriptionText(info) == NoDescription
    ensures |DescriptionText(info)| == 39 && !ShowsToggle(DescriptionText(info))
  {
  }

  /**
   * A non-empty description is shown without tags and no longer than it was;
   * the toggle shows only when the original was over 80 code units long.
   */
  lemma PresentDescription(info: VolumeInfo)
    requires info.description.Some? && info.description.value != ""
    ensures forall i: nat, j: nat :: !IsTag(DescriptionText(info), i, j)
    ensures |DescriptionText(info)| <= |info.description.value|
    ensures ShowsToggle(DescriptionText(info)) ==> Utf16Length(info.description.value) > ClampLength
  {
    StripTagsTagFree(info.description.value);
    TagFreeHasNoTag(DescriptionText(info));
    StripTagsCodeUnits(info.description.value);
  }

  /** `info.authors ? info.authors.join(", ") : "Unknown Author"`. */
  function AuthorsLine(info: VolumeInfo): string
  {
    if info.authors.Some? then Join(info.authors.value, ", ") else UnknownAuthor
  }

  /** `field || "N/A"` for a text field. */
  function OrNotAvailable(field: Option<string>): string
  {
    if field.Some? && field.value != "" then field.value else NotAvailable
  }

  /** `info.imageLinks?.thumbnail || "https://via.placeholder.com/200x300?text=No+Image"`. */
  function ImageSource(info: VolumeInfo): string
  {
    if info.thumbnail.Some? && info.thumbnail.value != "" then info.thumbnail.value else NoImage
  }

  function Digit(d: nat): char
    requires d < 10
  {
    ('0' as int + d) as char
  }

  /** The decimal digits of `n`, as a number is rendered. */
  function NatToString(n: nat): (r: string)
    ensures |r| > 0
    ensures forall i :: 0 <= i < |r| ==> '0' <= r[i] <= '9'
  {
    if n < 10 then [Digit(n)] else NatToString(n / 10) + [Digit(n % 10)]
  }

  /** The number a string of decimal digits stands for. */
  function DecimalValue(s: string): nat
    requires forall i :: 0 <= i < |s| ==> '0' <= s[i] <= '9'
  {
    if |s| == 0 then 0 else DecimalValue(s[..|s| - 1]) * 10 + (s[|s| - 1] as int - '0' as int)
  }

  /** The rendered digits read back as the number itself. */
  lemma {:induction false} NatToStringValue(n: nat)
    ensures DecimalValue(NatToString(n)) == n
  {
    if n >= 10 {
      NatToStringValue(n / 10);
      var r := NatToString(n);
      assert r[..|r| - 1] == NatToString(n / 10);
    }
  }

  /** An integer as text, with a minus sign when negative. */
  function IntToString(n: int): string
  {
    if n < 0 then "-" + NatToString(-n) else NatToString(n)
  }

  /** `info.pageCount || "N/A"`: a page count of 0 counts as missing. */
  function PageCountLine(pageCount: Option<int>): string
  {
    if pageCount.Some? && pageCount.value != 0 then IntToString(pageCount.value) else NotAvailable
  }

  /** The publisher and date lines are never blank: "N/A" stands for a missing or empty value. */
  lemma TextFallbacks(field: Option<string>)
    ensures OrNotAvailable(field) != ""
    ensures OrNotAvailable(field) == NotAvailable <==> field.None? || field.value == "" || field.value == NotAvailable
  {
  }

  /** An image is always shown: the placeholder stands for a missing or empty thumbnail link. */
  lemma ImageFallback(info: VolumeInfo)
    ensures ImageSource(info) != ""
    ensures ImageSource(info) == NoImage <==>
      info.thumbnail.None? || info.thumbnail.value == "" || info.thumbnail.value == NoImage
  {
  }

  /** "N/A" shows for the page count exactly when it is missing or 0; otherwise its digits do. */
  lemma PageCountFallback(pageCount: Option<int>)
    ensures PageCountLine(pageCount) == NotAvailable <==> pageCount.None? || pageCount.value == 0
    ensures pageCount.Some? && pageCount.value > 0 ==> DecimalValue(PageCountLine(pageCount)) == pageCount.value
  {
    if pageCount.Some? && pageCount.value != 0 {
      var n := pageCount.value;
      var digits := NatToString(if n < 0 then -n else n);
      assert digits[0] != 'N';
      assert PageCountLine(pageCount)[0] != 'N';
      if n > 0 {
        NatToStringValue(n);
      }
    }
  }

  /**
   * "Unknown Author" shows only when the record has no authors array; an
   * empty array, or one holding a single empty name, leaves the line empty.
   */
  lemma AuthorsFallback(info: VolumeInfo)
    ensures info.authors.None? ==> AuthorsLine(info) == UnknownAuthor
    ensures info.authors.Some? ==>
      (AuthorsLine(info) == "" <==> info.authors.value == [] || info.authors.value == [""])
  {
    if info.authors.Some? {
      JoinEmptyIff(info.authors.value, ", ");
    }
  }

  /** What the view shows. */
  datatype Screen =
    | Loading
      /** The record came back without `volumeInfo`: reading `info.description` throws. */
    | Broken
    | Page(
        title: Option<string>,
        image: string,
        authors: string,
        publisher: string,
        published: string,
        pages: string,
        description: string,
        clamped: bool,
        toggle: Option<string>)

  /** The rendering of the view for the fetched record `book` (lines 27-94). */
  function Render(book: Option<Volume>, isExpanded: bool): (s: Screen)
    ensures s.Loading? <==> book.None?
    ensures s.Broken? <==> book.Some? && book.value.volumeInfo.None?
    ensures s.Page? ==> s.clamped == !isExpanded
    ensures s.Page? ==> (s.toggle.Some? <==> ShowsToggle(s.description))
    ensures s.Page? && s.toggle.Some? ==> s.toggle.value == if isExpanded then "Show Less" else "Read More"
  {
    if book.None? then Loading
    else if book.value.volumeInfo.None? then Broken
    else
      var info := book.value.volumeInfo.value;
      var description := DescriptionText(info);
      Page(
        info.title,
        ImageSource(info),
        AuthorsLine(info),
        OrNotAvailable(info.publisher),
        OrNotAvailable(info.publishedDate),
        PageCountLine(info.pageCount),
        description,
        !isExpanded,
        if ShowsToggle(description) then Some(if isExpanded then "Show Less" else "Read More") else None)
  }

  /**
   * How the fetch of the record settled: `Threw` when `fetch` or
   * `response.json()` threw, `Falsy` when the body parsed to `null`, `false`,
   * `0` or `""`, and `Body(data)` for any other body. A truthy body that is not
   * an object reads as a record without `volumeInfo`.
   */
  datatype Fetched = Threw | Falsy | Body(data: Volume)

  /** The view state of the detail page. */
  class DetailView {
    var book: Option<Volume>
    var isExpanded: bool

    /** Nothing fetched yet, description clamped. */
    constructor ()
      ensures book.None? && !isExpanded
    {
      book, isExpanded := None, false;
    }

    /**
     * The fetch for the record settled (lines 12-22). A throwing `fetch` or
     * `response.json()` is only logged; any body is handed to `setBook`, so a
     * falsy one takes the view back to "Loading...".
     */
    method FetchSettled(outcome: Fetched)
      modifies this`book
      ensures book == match outcome
        case Threw => old(book)
        case Falsy => None
        case Body(data) => Some(data)
      ensures outcome.Threw? ==> View() == old(View())
      ensures outcome.Falsy? ==> View() == Loading
      ensures outcome.Body? ==> View() != Loading
    {
      match outcome
      case Threw =>
      case Falsy =>
        book := None;
      case Body(data) =>
        book := Some(data);
    }

    /** The Read More / Show Less button is clicked. */
    method ToggleExpanded()
      modifies this`isExpanded
      ensures isExpanded == !old(isExpanded)
    {
      isExpanded := !isExpanded;
    }

    /** What the view shows now. */
    function View(): Screen
      reads this
    {
      Render(book, isExpanded)
    }
  }

  /** Two clicks on the toggle restore the view. */
  method ToggleTwice(view: DetailView)
    modifies view
    ensures view.isExpanded == old(view.isExpanded) && view.book == old(view.book)
    ensures view.View() == old(view.View())
  {
    view.ToggleExpanded();
    view.ToggleExpanded();
  }

  /** A failed fetch from the initial state leaves the view loading for good. */
  method FailedFetchKeepsLoading() returns (s: Screen)
    ensures s == Loading
  {
    var view := new DetailView();
    view.FetchSettled(Threw);
    s := view.View();
  }

  /**
   * A record is shown, then a later fetch (after a change of `id`) answers
   * with a falsy body such as `null`: the view goes back to loading.
   */
  method FalsyBodyHidesRecord(data: Volume) returns (before: Screen, after: Screen)
    ensures before != Loading
    ensures after == Loading
  {
    var view := new DetailView();
    view.FetchSettled(Body(data));
    before := view.View();
    view.FetchSettled(Falsy);
    after := view.View();
  }
}
