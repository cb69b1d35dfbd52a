/** The dropdown detector and the search injector: find the first open
    timezone listbox that has no search box yet and insert one at its top. */
module Dropdown {
  import opened Dom
  import opened Classifier

  /** A listbox the detector injects into: no `.tz-search-input` anywhere
      below it and its options form a timezone list. */
  ghost predicate Eligible(dropdown: Node, options: seq<Node>, doc: set<Node>)
    requires dropdown in doc && forall o :: o in options ==> o in doc
    reads doc
  {
    !ClassBelow(dropdown, SearchInputClass, doc) && IsTimezoneList(Texts(options))
  }

  /** The index of the first set flag at `i` or later. */
  function FirstSet(flags: seq<bool>, i: nat): (r: Option<nat>)
    requires i <= |flags|
    ensures r.None? <==> forall j :: i <= j < |flags| ==> !flags[j]
    ensures r.Some? ==> i <= r.value < |flags| && flags[r.value] && forall j :: i <= j < r.value ==> !flags[j]
    decreases |flags| - i
  {
    if i == |flags| then None
    else if flags[i] then Some(i)
    else FirstSet(flags, i + 1)
  }

  /** One flag per listbox, set exactly when the listbox is eligible. */
  ghost function EligibleFlags(dropdowns: seq<Node>, options: seq<seq<Node>>, doc: set<Node>): (r: seq<bool>)
    requires |options| == |dropdowns| && forall d :: d in dropdowns ==> d in doc
    requires forall j, o :: 0 <= j < |options| && o in options[j] ==> o in doc
    reads doc
    ensures |r| == |dropdowns| && forall j :: 0 <= j < |r| ==> r[j] == Eligible(dropdowns[j], options[j], doc)
  {
    seq(|dropdowns|, j requires 0 <= j < |dropdowns| reads doc =>
          Eligible(dropdowns[j], options[j], doc))
  }

  /** One turn of the scan: a listbox holding a search input is skipped,
      any other is classified by its options. */
  method CheckDropdown(dropdowns: seq<Node>, options: seq<seq<Node>>, i: nat, ghost doc: set<Node>) returns (eligible: bool)
    requires i < |options| == |dropdowns|
    requires (forall d :: d in dropdowns ==> d in doc) && ChildrenClosed(doc)
    requires forall j, o :: 0 <= j < |options| && o in options[j] ==> o in doc
    ensures eligible == EligibleFlags(dropdowns, options, doc)[i]
  {
    var hasSearch := QuerySelector(dropdowns[i], SearchInputClass, doc);
    if hasSearch {
      return false;
    }
    eligible := ClassifyOptions(options[i]);
  }

  /** The scan loop with its `continue` and early exit, without the injection:
      the index of the first eligible listbox in document order, or None. */
  method FirstTimezoneDropdown(dropdowns: seq<Node>, options: seq<seq<Node>>, ghost doc: set<Node>)
      returns (found: Option<nat>)
    requires |options| == |dropdowns|
    requires (forall d :: d in dropdowns ==> d in doc) && ChildrenClosed(doc)
    requires forall j, o :: 0 <= j < |options| && o in options[j] ==> o in doc
    ensures found == FirstSet(EligibleFlags(dropdowns, options, doc), 0)
    ensures found.None? <==> forall i :: 0 <= i < |dropdowns| ==> !Eligible(dropdowns[i], options[i], doc)
    ensures found.Some? ==>
              found.value < |dropdowns| &&
              Eligible(dropdowns[found.value], options[found.value], doc) &&
              forall j :: 0 <= j < found.value ==> !Eligible(dropdowns[j], options[j], doc)
  {
    ghost var flags := EligibleFlags(dropdowns, options, doc);
    var i := 0;
    while i < |dropdowns|
      invariant 0 <= i <= |dropdowns|
      invariant EligibleFlags(dropdowns, options, doc) == flags
      invariant FirstSet(flags, i) == FirstSet(flags, 0)
    {
      var eligible := CheckDropdown(dropdowns, options, i, doc);
      if eligible {
        return Some(i);
      }
      i := i + 1;
    }
    return None;
  }

  /** Builds the container holding the search input and inserts it before the
      first child of the listbox: the container becomes the first child, the
      existing children follow in their old order, and the input is now found
      below the listbox. */
  method AddSearchToDropdown(dropdown: Node, ghost doc: set<Node>) returns (container: Node, input: Node)
    requires dropdown in doc && Closed(doc)
    modifies dropdown`children
    ensures fresh(container) && fresh(input)
    ensures dropdown.children == [container] + old(dropdown.children)
    ensures container.parent == dropdown && container.children == [input]
    ensures container.classes == {SearchContainerClass}
    ensures input.parent == container && input.children == [] && input.classes == {SearchInputClass}
    ensures Closed(doc + {container, input})
    ensures ClassBelow(dropdown, SearchInputClass, doc + {container, input})
  {
    container := new Node("", {SearchContainerClass});
    input := new Node("", {SearchInputClass});
    container.children := [input];
    input.parent := container;
    dropdown.children := [container] + dropdown.children;
    container.parent := dropdown;
    assert ChildPath(dropdown, [container, input], doc + {container, input});
  }

  /** `findTimezoneDropdown`: inject into the first eligible listbox, if any,
      and report whether it did. Listboxes that already hold a search input
      are skipped, at most one listbox changes, and the one that changed is
      not eligible for any later scan. */
  method FindTimezoneDropdown(dropdowns: seq<Node>, options: seq<seq<Node>>, ghost doc: set<Node>)
      returns (injected: bool, ghost into: Option<nat>, ghost newDoc: set<Node>)
    requires |options| == |dropdowns|
    requires (forall d :: d in dropdowns ==> d in doc) && Closed(doc)
    requires forall j, o :: 0 <= j < |options| && o in options[j] ==> o in doc
    modifies dropdowns`children
    ensures injected <==> exists i :: 0 <= i < |dropdowns| && old(Eligible(dropdowns[i], options[i], doc))
    ensures injected <==> into.Some?
    ensures doc <= newDoc && Closed(newDoc)
    ensures !injected ==> newDoc == doc && forall d :: d in dropdowns ==> d.children == old(d.children)
    ensures into.Some? ==>
              var k := into.value;
              k < |dropdowns| &&
              old(Eligible(dropdowns[k], options[k], doc)) &&
              (forall j :: 0 <= j < k ==> !old(Eligible(dropdowns[j], options[j], doc))) &&
              |dropdowns[k].children| == |old(dropdowns[k].children)| + 1 &&
              dropdowns[k].children[1..] == old(dropdowns[k].children) &&
              ClassBelow(dropdowns[k], SearchInputClass, newDoc) &&
              !Eligible(dropdowns[k], options[k], newDoc) &&
              forall d :: d in dropdowns && d != dropdowns[k] ==> d.children == old(d.children)
  {
    var found := FirstTimezoneDropdown(dropdowns, options, doc);
    if found.None? {
      return false, None, doc;
    }
    var container, input := AddSearchToDropdown(dropdowns[found.value], doc);
    return true, found, doc + {container, input};
  }

  /** Two scans in a row, as the repeated timers and observers run them: the
      second scan never injects into the listbox the first scan injected into,
      so a listbox receives at most one search box. */
  method FindTimezoneDropdownTwice(dropdowns: seq<Node>, options: seq<seq<Node>>, ghost doc: set<Node>)
      returns (first: bool, second: bool, ghost into1: Option<nat>, ghost into2: Option<nat>)
    requires |options| == |dropdowns|
    requires (forall d :: d in dropdowns ==> d in doc) && Closed(doc)
    requires forall j, o :: 0 <= j < |options| && o in options[j] ==> o in doc
    modifies dropdowns`children
    ensures first <==> into1.Some?
    ensures second <==> into2.Some?
    ensures into1.Some? ==> into1.value < |dropdowns|
    ensures into2.Some? ==> into2.value < |dropdowns|
    ensures into1.Some? && into2.Some? ==> dropdowns[into2.value] != dropdowns[into1.value]
    ensures !first ==> !second
  {
    ghost var doc1;
    first, into1, doc1 := FindTimezoneDropdown(dropdowns, options, doc);
    ghost var doc2;
    second, into2, doc2 := FindTimezoneDropdown(dropdowns, options, doc1);
  }
}
