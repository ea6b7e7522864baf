/**
 * Worked examples: a two-record batch holding "Dune" and "Dune Messiah", both
 * by Frank Herbert, and descriptions with and without markup.
 */
module Scenarios {
  import opened Wrappers
  import opened Text
  import opened JsMap
  import opened JsArray
  import opened Books
  import opened Catalog
  import opened Details

  /** A record by Frank Herbert with only a title and the authors filled in. */
  function Record(id: string, title: string): Volume
  {
    Volume(id, Some(VolumeInfo(Some(title), Some(["Frank Herbert"]), None, None, None, None, None)))
  }

  /** Typing "dune" suggests both titles, in batch order, with their author. */
  lemma DuneSuggestions()
    ensures Suggest([Record("a", "Dune"), Record("b", "Dune Messiah")], "dune")
      == [Suggestion(Some("Dune"), "Frank Herbert"), Suggestion(Some("Dune Messiah"), "Frank Herbert")]
  {
    var d, m := Record("a", "Dune"), Record("b", "Dune Messiah");
    assert Lower("Dune") == "dune";
    assert Lower("Dune Messiah") == "dune messiah";
    assert PrefixMatch("dune", d) && PrefixMatch("dune", m);
    var books := [d, m];
    assert Filter(books, b => PrefixMatch("dune", b)) == [d, m] by {
      assert books[1..] == [m];
      assert books[1..][1..] == [];
    }
    var es := TitleEntries([d, m]);
    assert Join(["Frank Herbert"], ", ") == "Frank Herbert";
    assert es == [(Some("Dune"), Project(d)), (Some("Dune Messiah"), Project(m))];
    assert es[..1] == [(Some("Dune"), Project(d))];
    assert es[..1][..0] == [];
    assert FromEntries(es[..1]) == [(Some("Dune"), Project(d))];
    assert Some("Dune") != Some("Dune Messiah") by { assert "Dune"[4..] == ""; }
    assert FromEntries(es) == [(Some("Dune"), Project(d)), (Some("Dune Messiah"), Project(m))];
  }

  /** Searching for "dune" finds both records. */
  lemma DuneSearch()
    ensures SearchResults([Record("a", "Dune"), Record("b", "Dune Messiah")], "dune")
      == [Record("a", "Dune"), Record("b", "Dune Messiah")]
  {
    var d, m := Record("a", "Dune"), Record("b", "Dune Messiah");
    assert Lower("dune") == "dune";
    assert Lower("Dune") == "dune";
    assert Lower("Dune Messiah") == "dune messiah";
    assert StartsWith("dune", "dune") && StartsWith("dune messiah", "dune");
    var books := [d, m];
    assert books[1..] == [m];
    assert books[1..][1..] == [];
  }

  /** Markup around and inside a description is removed. */
  lemma StripBold()
    ensures StripTags("<b>Hi</b>") == "Hi"
  {
    assert IndexOf("b>Hi</b>", '>') == Some(1);
    assert IndexOf("/b>", '>') == Some(2);
    assert StripTags("</b>") == "";
  }

  /** A `<` right before `>`, or with no `>` after it, is kept. */
  lemma KeepLoneAngles()
    ensures StripTags("<> <") == "<> <"
  {
    assert StripTags(" <") == " <";
    assert IndexOf("> <", '>') == Some(0);
  }

  /**
   * 79 characters of plain text and one emoji make 80 characters but 81 UTF-16
   * code units, so the toggle is offered.
   */
  lemma WideCharacterToggle(s: string)
    requires |s| == 79 && '<' !in s
    requires forall i :: 0 <= i < |s| ==> s[i] as int <= 0xFFFF
    ensures |StripTags(s + "\U{1F600}")| == 80
    ensures ShowsToggle(StripTags(s + "\U{1F600}"))
  {
    StripTagsKeepsPlainPrefix(s, "\U{1F600}");
    NoAngleUnchanged("\U{1F600}");
    Utf16LengthBmp(s);
    Utf16LengthAppend(s, "\U{1F600}");
  }
}
