/** The dialog watcher: every dialog not yet inspected is marked as inspected,
    and when one of its headings mentions "time zone" its comboboxes receive
    the same guarded click listener as the triggers. */
module Dialogs {
  import opened Dom
  import opened Triggers

  /** Every node of every list. */
  ghost function Nodes(lists: seq<seq<Node>>): (r: set<Node>)
    ensures forall k, c :: 0 <= k < |lists| && c in lists[k] ==> c in r
  {
    set k, c | 0 <= k < |lists| && c in lists[k] :: c
  }

  /** Some heading of the dialog mentions "time zone" (case-insensitively). */
  predicate HasTimezoneHeading(headings: seq<Node>)
    reads headings`text
  {
    exists h :: h in headings && MentionsTimeZone(h.text)
  }

  /** `div[role="dialog"]:not([tz-checked])`: the dialogs without the
      inspection marker, in document order. */
  function Unchecked(dialogs: seq<Node>): (r: seq<Node>)
    reads dialogs`markers
    ensures |r| <= |dialogs|
    ensures forall d :: d in r ==> d in dialogs && CheckedMarker !in d.markers
    ensures forall d :: d in dialogs && CheckedMarker !in d.markers ==> d in r
  {
    if dialogs == [] then []
    else
      var init := dialogs[..|dialogs| - 1];
      var last := dialogs[|dialogs| - 1];
      assert dialogs == init + [last];
      if CheckedMarker in last.markers then Unchecked(init) else Unchecked(init) + [last]
  }

  /** Once every dialog carries the marker, the selector matches nothing. */
  lemma {:induction false} AllCheckedNoneUnchecked(dialogs: seq<Node>)
    requires forall d :: d in dialogs ==> CheckedMarker in d.markers
    ensures Unchecked(dialogs) == []
  {
    if dialogs != [] {
      var init := dialogs[..|dialogs| - 1];
      assert dialogs == init + [dialogs[|dialogs| - 1]];
      AllCheckedNoneUnchecked(init);
    }
  }

  /** One flag per dialog: does the selector pick it? The flags are read once,
      before any dialog is marked, as `querySelectorAll` returns a static list. */
  function UncheckedFlags(dialogs: seq<Node>): (r: seq<bool>)
    reads dialogs`markers
    ensures |r| == |dialogs|
    ensures forall k :: 0 <= k < |dialogs| ==> (r[k] <==> CheckedMarker !in dialogs[k].markers)
  {
    if dialogs == [] then []
    else
      var init := dialogs[..|dialogs| - 1];
      assert dialogs == init + [dialogs[|dialogs| - 1]];
      UncheckedFlags(init) + [CheckedMarker !in dialogs[|dialogs| - 1].markers]
  }

  /** One flag per dialog: does one of its headings mention "time zone"? */
  ghost function HeadingFlags(headings: seq<seq<Node>>): (r: seq<bool>)
    reads Nodes(headings)`text
    ensures |r| == |headings|
    ensures forall k :: 0 <= k < |headings| ==> (r[k] <==> HasTimezoneHeading(headings[k]))
  {
    if headings == [] then []
    else
      var init := headings[..|headings| - 1];
      assert forall k, c :: 0 <= k < |init| && c in init[k] ==> c in Nodes(headings) by {
        forall k, c | 0 <= k < |init| && c in init[k] ensures c in Nodes(headings) {
          assert init[k] == headings[k];
        }
      }
      HeadingFlags(init) + [HasTimezoneHeading(headings[|headings| - 1])]
  }

  /** The comboboxes of the first `n` dialogs that are picked and have a
      heading mentioning "time zone". */
  function Selected(unchecked: seq<bool>, matching: seq<bool>, comboboxes: seq<seq<Node>>, n: nat): set<Node>
    requires n <= |unchecked| && |matching| == |unchecked| && |comboboxes| == |unchecked|
  {
    set k, c | 0 <= k < n && unchecked[k] && matching[k] && c in comboboxes[k] :: c
  }

  /** One more dialog adds its comboboxes when it is picked and its headings match. */
  lemma SelectedSnoc(unchecked: seq<bool>, matching: seq<bool>, comboboxes: seq<seq<Node>>, n: nat)
    requires n < |unchecked| && |matching| == |unchecked| && |comboboxes| == |unchecked|
    ensures Selected(unchecked, matching, comboboxes, n + 1) ==
              if unchecked[n] && matching[n]
              then Selected(unchecked, matching, comboboxes, n) + set c | c in comboboxes[n]
              else Selected(unchecked, matching, comboboxes, n)
  {
  }

  /** The body of `dialogs.forEach`: mark the dialog, then for every heading
      that mentions "time zone" instrument the comboboxes of the dialog. A
      second matching heading instruments them again, which the guard turns
      into a no-op. */
  method InspectDialog(dialog: Node, headings: seq<Node>, comboboxes: seq<Node>)
    requires dialog.role == Some("dialog")
    requires forall c :: c in comboboxes ==> c.role == Some("combobox")
    modifies dialog`markers, comboboxes`markers, comboboxes`clickListeners
    ensures dialog.markers == old(dialog.markers) + {CheckedMarker}
    ensures HasTimezoneHeading(headings) ==>
              forall c :: c in comboboxes ==>
                c.markers == old(c.markers) + {ListenerMarker} &&
                c.clickListeners == if ListenerMarker in old(c.markers) then old(c.clickListeners) else old(c.clickListeners) + 1
    ensures !HasTimezoneHeading(headings) ==>
              forall c :: c in comboboxes ==> c.markers == old(c.markers) && c.clickListeners == old(c.clickListeners)
  {
    dialog.markers := dialog.markers + {CheckedMarker};
    ghost var matched := false;
    var j := 0;
    while j < |headings|
      invariant 0 <= j <= |headings|
      invariant dialog.markers == old(dialog.markers) + {CheckedMarker}
      invariant matched <==> exists k :: 0 <= k < j && MentionsTimeZone(headings[k].text)
      invariant matched ==>
                  forall c :: c in comboboxes ==>
                    c.markers == old(c.markers) + {ListenerMarker} &&
                    c.clickListeners == if ListenerMarker in old(c.markers) then old(c.clickListeners) else old(c.clickListeners) + 1
      invariant !matched ==>
                  forall c :: c in comboboxes ==> c.markers == old(c.markers) && c.clickListeners == old(c.clickListeners)
    {
      if MentionsTimeZone(headings[j].text) {
        AttachListeners(comboboxes);
        matched := true;
      }
      j := j + 1;
    }
  }

  /** The dialogs visited in the first `i` turns carry the inspection marker
      on top of their markers on entry; the others are as on entry. */
  ghost predicate DialogsVisited(dialogs: seq<Node>, i: nat, markers0: map<Node, set<string>>)
    requires i <= |dialogs|
    reads dialogs`markers
  {
    forall d :: d in dialogs ==>
      d in markers0 && d.markers == markers0[d] + if d in dialogs[..i] then {CheckedMarker} else {}
  }

  /** The snapshot flags are those of the markers on entry. */
  ghost predicate FlagsAgree(dialogs: seq<Node>, unchecked: seq<bool>, markers0: map<Node, set<string>>)
    requires |unchecked| == |dialogs|
  {
    forall k :: 0 <= k < |dialogs| && dialogs[k] in markers0 ==> (unchecked[k] <==> CheckedMarker !in markers0[dialogs[k]])
  }

  /** The comboboxes selected in the first `i` turns carry the listener
      marker and gained a listener exactly when they had no marker on entry;
      the others are as on entry. */
  ghost predicate BoxesVisited(selected: set<Node>, boxes: set<Node>,
                               markers0: map<Node, set<string>>, listeners0: map<Node, nat>)
    reads boxes`markers, boxes`clickListeners
  {
    forall c :: c in boxes ==>
      c in markers0 && c in listeners0 &&
      var hit := c in selected;
      c.markers == markers0[c] + (if hit then {ListenerMarker} else {}) &&
      c.clickListeners == listeners0[c] + (if hit && ListenerMarker !in markers0[c] then 1 else 0)
  }

  /** The state after the first `i` turns of `dialogs.forEach`, relative to
      the markers `markers0` and listener counts `listeners0` on entry. */
  ghost predicate VisitedUpTo(dialogs: seq<Node>, matching: seq<bool>, comboboxes: seq<seq<Node>>,
                              unchecked: seq<bool>, i: nat, boxes: set<Node>,
                              markers0: map<Node, set<string>>, listeners0: map<Node, nat>)
    requires i <= |dialogs| && |matching| == |dialogs| && |comboboxes| == |dialogs| && |unchecked| == |dialogs|
    reads dialogs`markers, boxes`markers, boxes`clickListeners
  {
    DialogsVisited(dialogs, i, markers0) && FlagsAgree(dialogs, unchecked, markers0) &&
    BoxesVisited(Selected(unchecked, matching, comboboxes, i), boxes, markers0, listeners0)
  }

  /** The markers of every node of `nodes`, as they are now. */
  ghost function MarkersOf(nodes: set<Node>): (r: map<Node, set<string>>)
    reads nodes`markers
    ensures forall n :: n in nodes ==> n in r && r[n] == n.markers
  {
    map n | n in nodes :: n.markers
  }

  /** The listener count of every node of `nodes`, as it is now. */
  ghost function ListenersOf(nodes: set<Node>): (r: map<Node, nat>)
    reads nodes`clickListeners
    ensures forall n :: n in nodes ==> n in r && r[n] == n.clickListeners
  {
    map n | n in nodes :: n.clickListeners
  }

  /** Before the first turn nothing has changed. */
  lemma VisitedAtStart(dialogs: seq<Node>, matching: seq<bool>, comboboxes: seq<seq<Node>>, boxes: set<Node>)
    requires |matching| == |dialogs| && |comboboxes| == |dialogs|
    ensures VisitedUpTo(dialogs, matching, comboboxes, UncheckedFlags(dialogs), 0, boxes,
                        MarkersOf((set d | d in dialogs) + boxes), ListenersOf(boxes))
  {
    var unchecked := UncheckedFlags(dialogs);
    var markers0 := MarkersOf((set d | d in dialogs) + boxes);
    var listeners0 := ListenersOf(boxes);
    assert DialogsVisited(dialogs, 0, markers0) by {
      assert dialogs[..0] == [];
    }
    assert FlagsAgree(dialogs, unchecked, markers0);
    assert Selected(unchecked, matching, comboboxes, 0) == {};
    assert BoxesVisited({}, boxes, markers0, listeners0);
  }

  /** One turn of `dialogs.forEach`: a dialog the selector picked is inspected,
      any other is passed over; the state advances by one dialog. */
  method VisitDialog(dialogs: seq<Node>, headings: seq<seq<Node>>, comboboxes: seq<seq<Node>>,
                     unchecked: seq<bool>, ghost matching: seq<bool>, i: nat, ghost boxes: set<Node>,
                     ghost markers0: map<Node, set<string>>, ghost listeners0: map<Node, nat>)
    requires i < |dialogs| && |headings| == |dialogs| && |comboboxes| == |dialogs| && |unchecked| == |dialogs|
    requires |matching| == |dialogs| && matching[i] == HasTimezoneHeading(headings[i])
    requires forall d :: d in dialogs ==> d.role == Some("dialog")
    requires (forall k, c :: 0 <= k < |comboboxes| && c in comboboxes[k] ==> c in boxes)
    requires forall c :: c in boxes ==> c.role == Some("combobox")
    requires VisitedUpTo(dialogs, matching, comboboxes, unchecked, i, boxes, markers0, listeners0)
    modifies {dialogs[i]}`markers, comboboxes[i]`markers, comboboxes[i]`clickListeners
    ensures VisitedUpTo(dialogs, matching, comboboxes, unchecked, i + 1, boxes, markers0, listeners0)
  {
    var dialog := dialogs[i];
    assert dialogs[..i + 1] == dialogs[..i] + [dialog];
    SelectedSnoc(unchecked, matching, comboboxes, i);
    if unchecked[i] {
      InspectDialog(dialog, headings[i], comboboxes[i]);
      forall c | c in boxes
        ensures var hit := c in Selected(unchecked, matching, comboboxes, i + 1);
                c.markers == markers0[c] + (if hit then {ListenerMarker} else {}) &&
                c.clickListeners == listeners0[c] + (if hit && ListenerMarker !in markers0[c] then 1 else 0)
      {
        if c in comboboxes[i] && HasTimezoneHeading(headings[i]) {
          if c in Selected(unchecked, matching, comboboxes, i) {
            assert ListenerMarker in old(c.markers);
          }
        }
      }
    }
  }

  /** After the last turn: every dialog is marked, the selected comboboxes are
      instrumented relative to their entry state, the others are as on entry. */
  lemma VisitedComplete(dialogs: seq<Node>, matching: seq<bool>, comboboxes: seq<seq<Node>>,
                        unchecked: seq<bool>, boxes: set<Node>,
                        markers0: map<Node, set<string>>, listeners0: map<Node, nat>)
    requires |matching| == |dialogs| && |comboboxes| == |dialogs| && |unchecked| == |dialogs|
    requires VisitedUpTo(dialogs, matching, comboboxes, unchecked, |dialogs|, boxes, markers0, listeners0)
    ensures forall d :: d in dialogs ==> d in markers0 && d.markers == markers0[d] + {CheckedMarker}
    ensures forall c :: c in boxes && c in Selected(unchecked, matching, comboboxes, |dialogs|) ==>
              c in markers0 && c in listeners0 &&
              c.markers == markers0[c] + {ListenerMarker} &&
              c.clickListeners == if ListenerMarker in markers0[c] then listeners0[c] else listeners0[c] + 1
    ensures forall c :: c in boxes && c !in Selected(unchecked, matching, comboboxes, |dialogs|) ==>
              c in markers0 && c in listeners0 &&
              c.markers == markers0[c] && c.clickListeners == listeners0[c]
  {
    assert dialogs[..|dialogs|] == dialogs;
  }

  /** The `forEach` loop over the picked dialogs, relative to the snapshot
      of markers and listener counts taken on entry. */
  method VisitEach(dialogs: seq<Node>, headings: seq<seq<Node>>, comboboxes: seq<seq<Node>>, unchecked: seq<bool>,
                   ghost matching: seq<bool>, ghost boxes: set<Node>, ghost markers0: map<Node, set<string>>, ghost listeners0: map<Node, nat>)
    requires |headings| == |dialogs| && |comboboxes| == |dialogs| && |unchecked| == |dialogs|
    requires |matching| == |dialogs| && forall k :: 0 <= k < |dialogs| ==> matching[k] == HasTimezoneHeading(headings[k])
    requires forall d :: d in dialogs ==> d.role == Some("dialog")
    requires (forall k, c :: 0 <= k < |comboboxes| && c in comboboxes[k] ==> c in boxes)
    requires forall c :: c in boxes ==> c.role == Some("combobox")
    requires VisitedUpTo(dialogs, matching, comboboxes, unchecked, 0, boxes, markers0, listeners0)
    modifies dialogs`markers, boxes`markers, boxes`clickListeners
    ensures VisitedUpTo(dialogs, matching, comboboxes, unchecked, |dialogs|, boxes, markers0, listeners0)
  {
    var i := 0;
    while i < |dialogs|
      invariant 0 <= i <= |dialogs|
      invariant VisitedUpTo(dialogs, matching, comboboxes, unchecked, i, boxes, markers0, listeners0)
    {

      VisitDialog(dialogs, headings, comboboxes, unchecked, matching, i, boxes, markers0, listeners0);
      i := i + 1;
    }
  }

  /** The whole `forEach`, from the snapshot flags: every dialog gains the
      inspection marker, the selected comboboxes are instrumented, the others
      are left as they were. */
  method VisitAll(dialogs: seq<Node>, headings: seq<seq<Node>>, comboboxes: seq<seq<Node>>, unchecked: seq<bool>,
                  ghost matching: seq<bool>)
    requires |headings| == |dialogs| && |comboboxes| == |dialogs| && unchecked == UncheckedFlags(dialogs)
    requires matching == HeadingFlags(headings)
    requires forall d :: d in dialogs ==> d.role == Some("dialog")
    requires forall k, c :: 0 <= k < |comboboxes| && c in comboboxes[k] ==> c.role == Some("combobox")
    modifies dialogs`markers, Nodes(comboboxes)`markers, Nodes(comboboxes)`clickListeners
    ensures forall d :: d in dialogs ==> d.markers == old(d.markers) + {CheckedMarker}
    ensures forall c :: c in Nodes(comboboxes) && c in Selected(unchecked, matching, comboboxes, |dialogs|) ==>
              c.markers == old(c.markers) + {ListenerMarker} &&
              c.clickListeners == if ListenerMarker in old(c.markers) then old(c.clickListeners) else old(c.clickListeners) + 1
    ensures forall c :: c in Nodes(comboboxes) && c !in Selected(unchecked, matching, comboboxes, |dialogs|) ==>
              c.markers == old(c.markers) && c.clickListeners == old(c.clickListeners)
  {
    ghost var boxes := Nodes(comboboxes);
    ghost var markers0 := MarkersOf((set d | d in dialogs) + boxes);
    ghost var listeners0 := ListenersOf(boxes);
    VisitedAtStart(dialogs, matching, comboboxes, boxes);
    VisitEach(dialogs, headings, comboboxes, unchecked, matching, boxes, markers0, listeners0);
    VisitedComplete(dialogs, matching, comboboxes, unchecked, boxes, markers0, listeners0);
  }

  /** `watchForDialogs`: inspect exactly the dialogs that were unchecked on
      entry, in order. Afterwards every dialog is checked, so the next call
      inspects nothing; the comboboxes of the inspected dialogs with a
      matching heading are instrumented once, all other comboboxes are left
      alone, and the marker invariant of every combobox is kept. */
  method WatchForDialogs(dialogs: seq<Node>, headings: seq<seq<Node>>, comboboxes: seq<seq<Node>>)
      returns (inspected: seq<Node>)
    requires |headings| == |dialogs| && |comboboxes| == |dialogs|
    requires forall d :: d in dialogs ==> d.role == Some("dialog")
    requires forall k, c :: 0 <= k < |comboboxes| && c in comboboxes[k] ==> c.role == Some("combobox")
    modifies dialogs`markers, Nodes(comboboxes)`markers, Nodes(comboboxes)`clickListeners
    ensures inspected == old(Unchecked(dialogs))
    ensures forall d :: d in dialogs ==> d.markers == old(d.markers) + {CheckedMarker}
    ensures Unchecked(dialogs) == []
    ensures forall c :: c in Nodes(comboboxes) && c in Selected(old(UncheckedFlags(dialogs)), HeadingFlags(headings), comboboxes, |dialogs|) ==>
              c.markers == old(c.markers) + {ListenerMarker} &&
              c.clickListeners == if ListenerMarker in old(c.markers) then old(c.clickListeners) else old(c.clickListeners) + 1
    ensures forall c :: c in Nodes(comboboxes) && c !in Selected(old(UncheckedFlags(dialogs)), HeadingFlags(headings), comboboxes, |dialogs|) ==>
              c.markers == old(c.markers) && c.clickListeners == old(c.clickListeners)
    ensures forall c :: c in Nodes(comboboxes) && old(c.Instrumented()) ==> c.Instrumented()
  {
    inspected := Unchecked(dialogs);
    var unchecked := UncheckedFlags(dialogs);
    ghost var matching := HeadingFlags(headings);
    VisitAll(dialogs, headings, comboboxes, unchecked, matching);
    AllCheckedNoneUnchecked(dialogs);
    assert matching == HeadingFlags(headings);
  }
}
