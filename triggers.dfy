/** The trigger scanner: find the clickable elements that open a timezone
    chooser and give each of them one click listener. */
module Triggers {
  import opened Text
  import opened Dom

  /** The walk from a text element looks at most this many levels up. */
  const MaxLevels := 3

  /** The text test on candidate elements and on dialog headings. */
  predicate MentionsTimeZone(text: string)
  {
    Contains(Lower(text), "time zone")
  }

  /** An element that opens a picker: role `combobox`, or a `jsaction`
      attribute containing `click` (case-sensitive). */
  predicate IsClickable(n: Node)
    reads n`role, n`jsaction
  {
    n.role == Some("combobox") || (n.jsaction.Some? && Contains(n.jsaction.value, "click"))
  }

  /** The ancestor `d` levels above `e` is the nearest clickable strict
      ancestor of `e` within `MaxLevels` levels. */
  ghost predicate NearestClickableAt(e: Node, d: nat, doc: set<Node>)
    requires e in doc && ParentClosed(doc)
    reads doc`parent, doc`role, doc`jsaction
  {
    1 <= d <= MaxLevels &&
    AncestorAt(e, d, doc) != null && IsClickable(AncestorAt(e, d, doc)) &&
    forall k :: 1 <= k < d ==> AncestorAt(e, k, doc) != null && !IsClickable(AncestorAt(e, k, doc))
  }

  /** The trigger an element leads to, or null when there is none. */
  ghost function ClickableAncestorOf(e: Node, doc: set<Node>): (a: Node?)
    requires e in doc && ParentClosed(doc)
    reads doc`parent, doc`role, doc`jsaction
    ensures a != null ==> a in doc
  {
    if exists d :: NearestClickableAt(e, d, doc) then
      var d :| NearestClickableAt(e, d, doc);
      AncestorAt(e, d, doc)
    else
      null
  }

  /** The bounded walk: start at the parent, stop at the root, at the first
      clickable ancestor, or after three levels. The result is the nearest
      clickable strict ancestor within three levels, and null when no
      ancestor within three levels (before the root) is clickable. */
  method ClickableAncestor(element: Node, ghost doc: set<Node>) returns (trigger: Node?)
    requires element in doc && ParentClosed(doc)
    ensures trigger != null ==>
              exists d :: NearestClickableAt(element, d, doc) && trigger == AncestorAt(element, d, doc)
    ensures trigger == null ==> forall d :: !NearestClickableAt(element, d, doc)
    ensures trigger == ClickableAncestorOf(element, doc)
  {
    var node := element;
    trigger := null;
    var i := 0;
    while i < MaxLevels
      invariant 0 <= i <= MaxLevels
      invariant node in doc && node == AncestorAt(element, i, doc)
      invariant forall k :: 1 <= k <= i ==> AncestorAt(element, k, doc) != null && !IsClickable(AncestorAt(element, k, doc))
    {
      if node.parent == null {
        forall d | i < d ensures AncestorAt(element, d, doc) == null {
          PastRootStaysNull(element, i + 1, d, doc);
        }
        break;
      }
      node := node.parent;
      if IsClickable(node) {
        trigger := node;
        assert NearestClickableAt(element, i + 1, doc);
        break;
      }
      i := i + 1;
    }
  }

  /** No element occurs twice. */
  predicate Distinct<T(==)>(s: seq<T>)
  {
    forall i, j :: 0 <= i < j < |s| ==> s[i] != s[j]
  }

  /** `if (!list.includes(x)) list.push(x)` */
  function PushNew<T(==)>(list: seq<T>, x: T): seq<T>
  {
    if x in list then list else list + [x]
  }

  /** The list built by pushing the elements of `xs` in order, skipping those
      already present: duplicate-free, and holding exactly the elements of `xs`. */
  function Dedup<T(==)>(xs: seq<T>): (r: seq<T>)
    ensures Distinct(r)
    ensures forall x :: x in r ==> x in xs
    ensures forall x :: x in xs ==> x in r
  {
    if xs == [] then []
    else
      var r := PushNew(Dedup(xs[..|xs| - 1]), xs[|xs| - 1]);
      assert xs == xs[..|xs| - 1] + [xs[|xs| - 1]];
      r
  }

  /** The trigger of every element whose text mentions "time zone", in
      document order, with repetitions. */
  ghost function Candidates(elements: seq<Node>, doc: set<Node>): (r: seq<Node>)
    requires (forall e :: e in elements ==> e in doc) && ParentClosed(doc)
    reads doc`parent, doc`role, doc`jsaction, doc`text
    ensures forall t :: t in r ==> t in doc
  {
    if elements == [] then []
    else
      var init := elements[..|elements| - 1];
      var e := elements[|elements| - 1];
      assert elements == init + [e];
      var a := ClickableAncestorOf(e, doc);
      if MentionsTimeZone(e.text) && a != null then Candidates(init, doc) + [a] else Candidates(init, doc)
  }

  /** The candidates are exactly the triggers of the elements that mention "time zone". */
  lemma {:induction false} CandidatesMembers(elements: seq<Node>, doc: set<Node>)
    requires (forall e :: e in elements ==> e in doc) && ParentClosed(doc)
    ensures forall t :: t in Candidates(elements, doc) ==>
              exists e :: e in elements && MentionsTimeZone(e.text) && ClickableAncestorOf(e, doc) == t
    ensures forall e :: e in elements && MentionsTimeZone(e.text) && ClickableAncestorOf(e, doc) != null ==>
              ClickableAncestorOf(e, doc) in Candidates(elements, doc)
  {
    if elements != [] {
      var init := elements[..|elements| - 1];
      assert elements == init + [elements[|elements| - 1]];
      CandidatesMembers(init, doc);
    }
  }

  /** Appending one element pushes it onto the deduplicated prefix. */
  lemma DedupSnoc<T>(xs: seq<T>, x: T)
    ensures Dedup(xs + [x]) == PushNew(Dedup(xs), x)
  {
    assert (xs + [x])[..|xs|] == xs;
  }

  /** One more element contributes its trigger, if it has one. */
  lemma CandidatesSnoc(elements: seq<Node>, i: nat, doc: set<Node>)
    requires i < |elements|
    requires (forall e :: e in elements ==> e in doc) && ParentClosed(doc)
    ensures Candidates(elements[..i + 1], doc) ==
              var a := ClickableAncestorOf(elements[i], doc);
              if MentionsTimeZone(elements[i].text) && a != null then Candidates(elements[..i], doc) + [a]
              else Candidates(elements[..i], doc)
  {
    assert elements[..i + 1][..i] == elements[..i];
  }

  /** One more element pushes its trigger, if it has one, onto the collected list. */
  lemma CollectStep(elements: seq<Node>, i: nat, doc: set<Node>)
    requires i < |elements|
    requires (forall e :: e in elements ==> e in doc) && ParentClosed(doc)
    ensures !MentionsTimeZone(elements[i].text) || ClickableAncestorOf(elements[i], doc) == null ==>
              Dedup(Candidates(elements[..i + 1], doc)) == Dedup(Candidates(elements[..i], doc))
    ensures forall a: Node :: MentionsTimeZone(elements[i].text) && ClickableAncestorOf(elements[i], doc) == a ==>
              Dedup(Candidates(elements[..i + 1], doc)) == PushNew(Dedup(Candidates(elements[..i], doc)), a)
  {
    CandidatesSnoc(elements, i, doc);
    if MentionsTimeZone(elements[i].text) && ClickableAncestorOf(elements[i], doc) != null {
      var a: Node := ClickableAncestorOf(elements[i], doc);
      DedupSnoc(Candidates(elements[..i], doc), a);
    }
  }

  /** One turn of the first loop: an element that mentions "time zone" and
      leads to a trigger pushes that trigger unless it is already listed. */
  method ScanElement(elements: seq<Node>, i: nat, triggers: seq<Node>, ghost doc: set<Node>) returns (next: seq<Node>)
    requires i < |elements|
    requires (forall e :: e in elements ==> e in doc) && ParentClosed(doc)
    requires triggers == Dedup(Candidates(elements[..i], doc))
    ensures next == Dedup(Candidates(elements[..i + 1], doc))
  {
    next := triggers;
    var element := elements[i];
    CollectStep(elements, i, doc);
    if MentionsTimeZone(element.text) {
      var parent := ClickableAncestor(element, doc);
      if parent != null {
        var trigger: Node := parent;
        assert Dedup(Candidates(elements[..i + 1], doc)) == PushNew(triggers, trigger);
        if trigger !in triggers {
          next := triggers + [trigger];
        }
      }
    }
  }

  /** The first loop of the scanner: walk up from every element mentioning
      "time zone" and collect the triggers found, each once. */
  method CollectTriggers(elements: seq<Node>, ghost doc: set<Node>) returns (triggers: seq<Node>)
    requires (forall e :: e in elements ==> e in doc) && ParentClosed(doc)
    ensures triggers == Dedup(Candidates(elements, doc))
    ensures Distinct(triggers)
    ensures forall t :: t in triggers ==>
              exists e :: e in elements && MentionsTimeZone(e.text) && ClickableAncestorOf(e, doc) == t
    ensures forall e :: e in elements && MentionsTimeZone(e.text) && ClickableAncestorOf(e, doc) != null ==>
              ClickableAncestorOf(e, doc) in triggers
  {
    triggers := [];
    var i := 0;
    while i < |elements|
      invariant 0 <= i <= |elements|
      invariant triggers == Dedup(Candidates(elements[..i], doc))
    {
      triggers := ScanElement(elements, i, triggers, doc);
      i := i + 1;
    }
    assert elements[..|elements|] == elements;
    CandidatesMembers(elements, doc);
  }

  /** The second loop of the scanner, and the same guard inside dialogs: every
      node gets the marker, and a click listener unless it already had the
      marker. A node listed twice still gets one listener. Nothing else changes. */
  method AttachListeners(nodes: seq<Node>)
    modifies nodes`markers, nodes`clickListeners
    ensures forall n :: n in nodes ==> n.markers == old(n.markers) + {ListenerMarker}
    ensures forall n :: n in nodes ==>
              n.clickListeners == if ListenerMarker in old(n.markers) then old(n.clickListeners) else old(n.clickListeners) + 1
    ensures forall n :: n in nodes && old(n.Instrumented()) ==> n.Instrumented() && n.clickListeners == 1
  {
    var i := 0;
    while i < |nodes|
      invariant 0 <= i <= |nodes|
      invariant forall n :: n in nodes[..i] ==>
                  n.markers == old(n.markers) + {ListenerMarker} &&
                  n.clickListeners == if ListenerMarker in old(n.markers) then old(n.clickListeners) else old(n.clickListeners) + 1
      invariant forall n :: n in nodes && n !in nodes[..i] ==>
                  n.markers == old(n.markers) && n.clickListeners == old(n.clickListeners)
    {
      nodes[i].Instrument();
      assert nodes[..i + 1] == nodes[..i] + [nodes[i]];
      i := i + 1;
    }
    assert nodes[..|nodes|] == nodes;
  }

  /** `findTimezoneSelectors`: collect the triggers, then instrument them. The
      marker invariant of every node (marker iff one listener) is preserved, so
      however often the scan runs, a trigger never has more than one listener. */
  method FindTimezoneSelectors(elements: seq<Node>, ghost doc: set<Node>) returns (triggers: seq<Node>)
    requires (forall e :: e in elements ==> e in doc) && ParentClosed(doc)
    modifies doc`markers, doc`clickListeners
    ensures triggers == Dedup(Candidates(elements, doc)) && Distinct(triggers)
    ensures forall t :: t in triggers ==> t in doc && t.markers == old(t.markers) + {ListenerMarker}
    ensures forall t :: t in triggers ==>
              t.clickListeners == if ListenerMarker in old(t.markers) then old(t.clickListeners) else old(t.clickListeners) + 1
    ensures forall n :: n in doc && n !in triggers ==>
              n.markers == old(n.markers) && n.clickListeners == old(n.clickListeners)
    ensures forall n :: n in doc && old(n.Instrumented()) ==> n.Instrumented()
    ensures forall t :: t in triggers && old(t.Instrumented()) ==> t.clickListeners == 1
  {
    triggers := CollectTriggers(elements, doc);
    AttachListeners(triggers);
  }
}
