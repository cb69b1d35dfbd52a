/** The live filter wired to the injected input: each `input` event shows the
    options whose text contains the query and hides the others. */
module Filter {
  import opened Text
  import opened Dom

  /** The `display` an option with text `text` gets for `query`. */
  function Visibility(text: string, query: string): string
  {
    if Matches(text, query) then Shown else Hidden
  }

  /** What the filter sees of an option: its text and its `display`. */
  datatype OptionView = OptionView(text: string, display: string)

  /** The options after one `input` event with `query`: texts untouched, an
      option shown iff its text matches the query, hidden otherwise. */
  function Filtered(options: seq<OptionView>, query: string): (r: seq<OptionView>)
    ensures |r| == |options|
    ensures forall i :: 0 <= i < |r| ==> r[i].text == options[i].text
    ensures forall i :: 0 <= i < |r| ==> (r[i].display == Shown <==> Matches(options[i].text, query))
    ensures forall i :: 0 <= i < |r| ==> (r[i].display == Hidden <==> !Matches(options[i].text, query))
  {
    if options == [] then []
    else [OptionView(options[0].text, Visibility(options[0].text, query))] + Filtered(options[1..], query)
  }

  /** The result depends on the texts and the query only, never on what was shown before. */
  lemma {:induction false} FilteredForgetsDisplay(a: seq<OptionView>, b: seq<OptionView>, query: string)
    requires |a| == |b| && forall i :: 0 <= i < |a| ==> a[i].text == b[i].text
    ensures Filtered(a, query) == Filtered(b, query)
  {
    if a != [] {
      FilteredForgetsDisplay(a[1..], b[1..], query);
    }
  }

  /** Typing the same query twice changes nothing the second time. */
  lemma FilterIdempotent(options: seq<OptionView>, query: string)
    ensures Filtered(Filtered(options, query), query) == Filtered(options, query)
  {
    FilteredForgetsDisplay(Filtered(options, query), options, query);
  }

  /** Only the latest query matters. */
  lemma FilterLatestQueryWins(options: seq<OptionView>, first: string, second: string)
    ensures Filtered(Filtered(options, first), second) == Filtered(options, second)
  {
    FilteredForgetsDisplay(Filtered(options, first), options, second);
  }

  /** Typing more characters only narrows the list: an option shown for the
      longer query was already shown for the shorter one. */
  lemma TypingMoreOnlyHides(options: seq<OptionView>, query: string, more: string)
    ensures forall i :: 0 <= i < |options| && Filtered(options, query + more)[i].display == Shown ==>
              Filtered(options, query)[i].display == Shown
  {
    LowerSlice(query + more, 0, |query|);
    assert (query + more)[0..|query|] == query;
    assert Lower(query) <= Lower(query + more);
    forall i | 0 <= i < |options| && Matches(options[i].text, query + more)
      ensures Matches(options[i].text, query)
    {
      ContainsTransitive(Lower(options[i].text), Lower(query + more), Lower(query));
    }
  }

  /** Clearing the input shows every option. */
  lemma EmptyQueryShowsAll(options: seq<OptionView>)
    ensures forall i :: 0 <= i < |options| ==> Filtered(options, "")[i].display == Shown
  {
    forall i | 0 <= i < |options| ensures Matches(options[i].text, "") {
      ContainsEmpty(Lower(options[i].text));
    }
  }

  /** The text and `display` of each option node, in order. */
  function Views(options: seq<Node>): (r: seq<OptionView>)
    reads options
    ensures |r| == |options|
    ensures forall i :: 0 <= i < |options| ==> r[i] == OptionView(options[i].text, options[i].display)
  {
    seq(|options|, i requires 0 <= i < |options| reads options => OptionView(options[i].text, options[i].display))
  }

  /** The `input` listener: runs over the option list captured when the search
      box was injected and writes only their `display`. */
  method ApplyQuery(options: seq<Node>, query: string)
    modifies options`display
    ensures forall i :: 0 <= i < |options| ==>
              (options[i].display == Shown <==> Matches(options[i].text, query)) &&
              (options[i].display == Hidden <==> !Matches(options[i].text, query))
    ensures Views(options) == Filtered(old(Views(options)), query)
  {
    var searchTerm := Lower(query);
    var i := 0;
    while i < |options|
      invariant 0 <= i <= |options|
      invariant forall j :: 0 <= j < i ==> options[j].display == Visibility(options[j].text, query)
    {
      var text := Lower(options[i].text);
      if Contains(text, searchTerm) {
        options[i].display := Shown;
      } else {
        options[i].display := Hidden;
      }
      i := i + 1;
    }
  }
}
