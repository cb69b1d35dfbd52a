/** The worked examples of the script's behaviour, on concrete option texts
    and small concrete documents. */
module Scenarios {
  import opened Text
  import opened Dom
  import opened Classifier
  import opened Filter

  /** Three option labels in the picker's style. */
  const Pacific := "(GMT-8:00) Pacific Time"
  const Eastern := "(GMT-5:00) Eastern Time"
  const London := "(GMT+0:00) London"

  /** The query "east" occurs in the Eastern label. */
  lemma EastMatchesEastern()
    ensures Matches(Eastern, "east")
  {
    assert Lower("east") == "east";
    assert Eastern[11..15] == "East";
    LowerSlice(Eastern, 11, 15);
    assert Lower("East") == "east";
    OccursContains(Lower(Eastern), "east", 11);
  }

  /** A label without the letter s, in either case, does not match "east". */
  lemma EastMissesLabel(text: string)
    requires 's' !in text && 'S' !in text
    ensures !Matches(text, "east")
  {
    assert Lower("east") == "east";
    LowerLacks(text, 's');
    MissingCharNotContained(Lower(text), "east", 's');
  }

  /** The query "east" matches the Eastern label only. */
  lemma EastMatchesEasternOnly()
    ensures Matches(Eastern, "east") && !Matches(Pacific, "east") && !Matches(London, "east")
  {
    EastMatchesEastern();
    LabelsLackS();
    EastMissesLabel(Pacific);
    EastMissesLabel(London);
  }

  /** Neither the Pacific nor the London label has the letter s. */
  lemma LabelsLackS()
    ensures 's' !in Pacific && 'S' !in Pacific && 's' !in London && 'S' !in London
  {
  }

  /** Every label opens with "(GMT", so "gmt" matches all three. */
  lemma GmtMatchesAll()
    ensures Matches(Pacific, "gmt") && Matches(Eastern, "gmt") && Matches(London, "gmt")
  {
    assert Lower("gmt") == "gmt";
    forall text | text in [Pacific, Eastern, London] ensures Matches(text, "gmt") {
      assert text[1..4] == "GMT";
      LowerSlice(text, 1, 4);
      OccursContains(Lower(text), "gmt", 1);
    }
  }

  /** The listbox of the three labels after typing `query` into the injected
      input: "east" leaves only the Eastern label visible, while the empty
      query and "gmt" show all three. */
  method TypeQuery(query: string) returns (displays: seq<string>)
    ensures |displays| == 3
    ensures query == "east" ==> displays == [Hidden, Shown, Hidden]
    ensures query == "" ==> displays == [Shown, Shown, Shown]
    ensures query == "gmt" ==> displays == [Shown, Shown, Shown]
  {
    var pacific := new Node(Pacific, {});
    var eastern := new Node(Eastern, {});
    var london := new Node(London, {});
    var options := [pacific, eastern, london];
    ApplyQuery(options, query);
    assert options[0] == pacific && options[1] == eastern && options[2] == london;
    displays := [pacific.display, eastern.display, london.display];
    if query == "east" {
      EastMatchesEasternOnly();
    } else if query == "" {
      assert Lower(query) == [];
      ContainsEmpty(Lower(Pacific));
      ContainsEmpty(Lower(Eastern));
      ContainsEmpty(Lower(London));
    } else if query == "gmt" {
      GmtMatchesAll();
    }
  }

  /** Neither "gmt" nor "utc" occurs: the option has no offset term. */
  lemma NoOffsetTerm(text: string, c: char)
    requires c == 'u' || c == 'c'
    requires 'g' !in text && 'G' !in text && c !in text && (c as int - 32) as char !in text
    ensures !HasTimezoneTerms(text)
  {
    LowerLacks(text, 'g');
    MissingCharNotContained(Lower(text), "gmt", 'g');
    LowerLacks(text, c);
    MissingCharNotContained(Lower(text), "utc", c);
  }

  /** "GMT" names an offset but no region. */
  lemma OffsetWithoutRegion()
    ensures !HasTimezoneTerms("GMT")
  {
    var gmt := Lower("GMT");
    assert gmt == "gmt";
    MissingCharNotContained(gmt, "pacific", 'p');
    MissingCharNotContained(gmt, "eastern", 'e');
    MissingCharNotContained(gmt, "central", 'c');
    MissingCharNotContained(gmt, "mountain", 'o');
  }

  /** A region word alone names no offset. */
  lemma RegionWithoutOffset(word: string)
    requires word in ["Pacific", "Eastern", "Central", "Mountain", "London"]
    ensures !HasTimezoneTerms(word)
  {
    if word == "Mountain" {
      NoOffsetTerm(word, 'c');
    } else {
      NoOffsetTerm(word, 'u');
    }
  }

  /** "GMT" followed by "Pacific" carries both kinds of term, whatever follows. */
  lemma OffsetThenRegion(rest: string)
    ensures HasTimezoneTerms("GMT" + "Pacific" + rest)
  {
    var joined := "GMT" + "Pacific" + rest;
    assert joined[0..3] == "GMT" && joined[3..10] == "Pacific";
    LowerSlice(joined, 0, 3);
    OccursContains(Lower(joined), "gmt", 0);
    LowerSlice(joined, 3, 10);
    assert Lower("Pacific") == "pacific";
    OccursContains(Lower(joined), "pacific", 3);
  }

  /** Six options, each naming only one kind of term. */
  const Singles: seq<string> := ["GMT", "Pacific", "Eastern", "Central", "Mountain", "London"]

  /** None of the six options names both an offset and a region. */
  lemma NoSingleHasTerms()
    ensures forall i :: 0 <= i < |Singles| ==> !HasTimezoneTerms(Singles[i])
  {
    forall i | 0 <= i < |Singles| ensures !HasTimezoneTerms(Singles[i]) {
      if i == 0 { OffsetWithoutRegion(); } else { RegionWithoutOffset(Singles[i]); }
    }
  }

  /** The test is made option by option: the six options are enough in number
      and between them name an offset and a region, yet they are not a
      timezone list. */
  lemma JoinedTextIsNotEnough()
    ensures |Singles| > MinOptions && !IsTimezoneList(Singles)
  {
    NoSingleHasTerms();
  }

  /** ... although their joined text would pass the test. */
  lemma JoinedTextHasTerms()
    ensures HasTimezoneTerms(Singles[0] + Singles[1] + Singles[2] + Singles[3] + Singles[4] + Singles[5])
  {
    var rest := Singles[2] + Singles[3] + Singles[4] + Singles[5];
    assert Singles[0] + Singles[1] + Singles[2] + Singles[3] + Singles[4] + Singles[5] == Singles[0] + Singles[1] + rest;
    assert Singles[0] == "GMT" && Singles[1] == "Pacific";
    OffsetThenRegion(rest);
  }
}
