/** The heuristic that tells a timezone list from any other long listbox. */
module Classifier {
  import opened Text
  import opened Dom

  /** A listbox needs more than this many options to be considered. */
  const MinOptions := 5

  /** One option's lower-cased text names an offset (`gmt` or `utc`) and a
      North American region (`pacific`, `eastern`, `central` or `mountain`). */
  predicate HasTimezoneTerms(text: string)
  {
    var t := Lower(text);
    (Contains(t, "gmt") || Contains(t, "utc")) &&
    (Contains(t, "pacific") || Contains(t, "eastern") || Contains(t, "central") || Contains(t, "mountain"))
  }

  /** A list of option texts is a timezone list when it is longer than
      `MinOptions` and some single option carries both kinds of term. */
  predicate IsTimezoneList(texts: seq<string>)
  {
    |texts| > MinOptions && exists i :: 0 <= i < |texts| && HasTimezoneTerms(texts[i])
  }

  /** The `textContent` of each option, in order. */
  function Texts(options: seq<Node>): (r: seq<string>)
    reads options
    ensures |r| == |options|
    ensures forall i :: 0 <= i < |options| ==> r[i] == options[i].text
  {
    seq(|options|, i requires 0 <= i < |options| reads options => options[i].text)
  }

  /** The length guard and the option loop with its early exit: the options form
      a timezone list exactly when there are more than five of them and one
      option's own text has both an offset term and a region term. */
  method ClassifyOptions(options: seq<Node>) returns (isTimezoneList: bool)
    ensures isTimezoneList <==>
              |options| > MinOptions &&
              exists i :: 0 <= i < |options| && HasTimezoneTerms(options[i].text)
    ensures isTimezoneList == IsTimezoneList(Texts(options))
  {
    isTimezoneList := false;
    if |options| > MinOptions {
      var i := 0;
      while i < |options|
        invariant 0 <= i <= |options|
        invariant forall j :: 0 <= j < i ==> !HasTimezoneTerms(options[j].text)
      {
        var text := Lower(options[i].text);
        if (Contains(text, "gmt") || Contains(text, "utc")) &&
           (Contains(text, "pacific") || Contains(text, "eastern") ||
            Contains(text, "central") || Contains(text, "mountain"))
        {
          isTimezoneList := true;
          break;
        }
        i := i + 1;
      }
    }
  }
}
