/** An abstract DOM: element nodes with the few attributes the script looks at,
    the parent link and child list, the marker attributes the script writes,
    and the inline `display` style it sets on options.  A document is a ghost
    set of nodes closed under the parent and child links. */
module Dom {
  import opened Text

  datatype Option<T> = None | Some(value: T)

  /** Marker attribute set on every node that received a click listener. */
  const ListenerMarker := "tz-listener-added"
  /** Marker attribute set on every dialog that was inspected. */
  const CheckedMarker := "tz-checked"
  /** Class of the injected search input; its presence marks a dropdown as done. */
  const SearchInputClass := "tz-search-input"
  /** Class of the injected container that holds the input. */
  const SearchContainerClass := "tz-search-container"
  /** The two values the filter writes into `style.display`. */
  const Shown := ""
  const Hidden := "none"

  class Node {
    /** `textContent` */
    var text: string
    /** `getAttribute('role')`, None when the attribute is absent */
    var role: Option<string>
    /** `getAttribute('jsaction')`, None when the attribute is absent */
    var jsaction: Option<string>
    /** `parentElement` */
    var parent: Node?
    /** the element children, in document order */
    var children: seq<Node>
    /** the class list */
    var classes: set<string>
    /** the names of the attributes the script uses as markers */
    var markers: set<string>
    /** `style.display` */
    var display: string
    /** the number of click listeners the script has attached to this node */
    var clickListeners: nat

    /** `document.createElement(...)` followed by `className = ...`: a detached node. */
    constructor (text: string, classes: set<string>)
      ensures this.text == text && this.classes == classes
      ensures role == None && jsaction == None && parent == null && children == []
      ensures markers == {} && display == Shown && clickListeners == 0
    {
      this.text := text;
      this.classes := classes;
      role := None;
      jsaction := None;
      parent := null;
      children := [];
      markers := {};
      display := Shown;
      clickListeners := 0;
    }

    /** The marker tells the truth: the node carries `tz-listener-added` exactly
        when the script has attached its one click listener to it. */
    predicate Instrumented()
      reads this
    {
      clickListeners == if ListenerMarker in markers then 1 else 0
    }

    /** Check-then-set: attach a click listener only to a node without the marker,
        and set the marker in the same step. */
    method Instrument()
      modifies this`markers, this`clickListeners
      ensures markers == old(markers) + {ListenerMarker}
      ensures clickListeners == if ListenerMarker in old(markers) then old(clickListeners) else old(clickListeners) + 1
      ensures old(Instrumented()) ==> Instrumented() && clickListeners == 1
    {
      if ListenerMarker !in markers {
        markers := markers + {ListenerMarker};
        clickListeners := clickListeners + 1;
      }
    }
  }

  /** Every parent of a node of the document is in the document. */
  ghost predicate ParentClosed(doc: set<Node>)
    reads doc`parent
  {
    forall n :: n in doc && n.parent != null ==> n.parent in doc
  }

  /** Every child of a node of the document is in the document. */
  ghost predicate ChildrenClosed(doc: set<Node>)
    reads doc`children
  {
    forall n, c :: n in doc && c in n.children ==> c in doc
  }

  ghost predicate Closed(doc: set<Node>)
    reads doc`parent, doc`children
  {
    ParentClosed(doc) && ChildrenClosed(doc)
  }

  /** The node `d` levels above `n` along `parentElement`; null once the root has been passed. */
  ghost function AncestorAt(n: Node, d: nat, doc: set<Node>): (a: Node?)
    requires n in doc && ParentClosed(doc)
    reads doc`parent
    ensures a != null ==> a in doc
    ensures d == 0 ==> a == n
  {
    if d == 0 then n
    else
      var p := AncestorAt(n, d - 1, doc);
      if p == null then null else p.parent
  }

  /** Once the walk has passed the root it stays there. */
  lemma {:induction false} PastRootStaysNull(n: Node, i: nat, d: nat, doc: set<Node>)
    requires n in doc && ParentClosed(doc)
    requires i <= d && AncestorAt(n, i, doc) == null
    ensures AncestorAt(n, d, doc) == null
    decreases d - i
  {
    if i < d {
      assert AncestorAt(n, i + 1, doc) == null;
      PastRootStaysNull(n, i + 1, d, doc);
    }
  }

  /** `path` leads down from `n` along the child links, one level per step. */
  ghost predicate ChildPath(n: Node, older path: seq<Node>, doc: set<Node>)
    requires n in doc
    reads doc`children
  {
    |path| > 0 && (forall k :: 0 <= k < |path| ==> path[k] in doc) &&
    path[0] in n.children &&
    forall k :: 0 <= k < |path| - 1 ==> path[k + 1] in path[k].children
  }

  /** `m` is a descendant of `n`. */
  ghost predicate Below(n: Node, m: Node, doc: set<Node>)
    requires n in doc
    reads doc`children
  {
    exists path: seq<Node> :: ChildPath(n, path, doc) && path[|path| - 1] == m
  }

  /** Some descendant of `n`, at any depth, is in class `cls`. */
  ghost predicate ClassBelow(n: Node, cls: string, doc: set<Node>)
    requires n in doc
    reads doc`children, doc`classes
  {
    exists path: seq<Node> :: ChildPath(n, path, doc) && cls in path[|path| - 1].classes
  }

  /** A child of a descendant is a descendant. */
  lemma BelowStep(n: Node, m: Node, c: Node, doc: set<Node>)
    requires n in doc && c in doc && Below(n, m, doc) && c in m.children
    ensures Below(n, c, doc)
  {
    var path: seq<Node> :| ChildPath(n, path, doc) && path[|path| - 1] == m;
    assert ChildPath(n, path + [c], doc);
  }

  /** A descendant in class `cls` is a match of the query. */
  lemma FoundBelow(n: Node, m: Node, cls: string, doc: set<Node>)
    requires n in doc && Below(n, m, doc) && cls in m.classes
    ensures ClassBelow(n, cls, doc)
  {
    var path: seq<Node> :| ChildPath(n, path, doc) && path[|path| - 1] == m;
  }

  /** The search has reached the children of `n`, and only descendants of `n`. */
  ghost predicate Reached(n: Node, seen: set<Node>, doc: set<Node>)
    requires n in doc
    reads doc`children
  {
    seen <= doc && (forall c :: c in n.children ==> c in seen) && forall m :: m in seen ==> Below(n, m, doc)
  }

  /** Every reached node no longer waiting is not in class `cls`, and its
      children have been reached. */
  ghost predicate Explored(cls: string, seen: set<Node>, todo: set<Node>)
    reads seen`children, seen`classes
  {
    forall m :: m in seen - todo ==> cls !in m.classes && forall c :: c in m.children ==> c in seen
  }

  /** A set that holds the children of `n` and the children of each of its
      members holds every node on every path down from `n`. */
  lemma {:induction false} PathInClosedSet(n: Node, path: seq<Node>, seen: set<Node>, doc: set<Node>, k: nat)
    requires n in doc && ChildPath(n, path, doc) && k < |path|
    requires forall c :: c in n.children ==> c in seen
    requires forall m, c :: m in seen && c in m.children ==> c in seen
    ensures path[k] in seen
  {
    if k > 0 {
      PathInClosedSet(n, path, seen, doc, k - 1);
      assert path[k] in path[k - 1].children;
    }
  }

  /** A finished search that met no node in class `cls` has seen every
      descendant, so there is no match. */
  lemma ExploredNoMatch(n: Node, cls: string, seen: set<Node>, doc: set<Node>)
    requires n in doc && Reached(n, seen, doc) && Explored(cls, seen, {})
    ensures !ClassBelow(n, cls, doc)
  {
    forall path: seq<Node> | ChildPath(n, path, doc) ensures cls !in path[|path| - 1].classes {
      PathInClosedSet(n, path, seen, doc, |path| - 1);
    }
  }

  /** Taking `m` off the work set: its unreached children are reached. */
  lemma ExpandReached(n: Node, m: Node, seen: set<Node>, next: set<Node>, doc: set<Node>)
    requires n in doc && ChildrenClosed(doc) && m in seen && Reached(n, seen, doc)
    requires next == (set c | c in m.children) - seen
    ensures Reached(n, seen + next, doc)
    ensures forall c :: c in next ==> c in doc && c !in seen
  {
    forall c | c in next ensures Below(n, c, doc) {
      BelowStep(n, m, c, doc);
    }
  }

  /** Taking `m`, which is not in class `cls`, off the work set keeps the
      explored part explored, since its unreached children now wait in turn. */
  lemma ExpandExplored(cls: string, m: Node, seen: set<Node>, todo: set<Node>, next: set<Node>)
    requires m in todo && todo <= seen && Explored(cls, seen, todo) && cls !in m.classes
    requires next == (set c | c in m.children) - seen
    ensures Explored(cls, seen + next, todo - {m} + next)
  {
  }

  /** Moving `m` out of the work set and `next`, fresh nodes of the document,
      into it shrinks the unreached part plus the work set. */
  lemma ExpandShrinks(m: Node, seen: set<Node>, todo: set<Node>, next: set<Node>, doc: set<Node>)
    requires m in todo && todo <= seen
    requires forall c :: c in next ==> c in doc && c !in seen
    ensures |doc - (seen + next)| + |todo - {m} + next| < |doc - seen| + |todo|
  {
    assert doc - (seen + next) == (doc - seen) - next;
    assert next <= doc - seen;
    assert |doc - (seen + next)| == |doc - seen| - |next|;
    assert (todo - {m}) * next == {};
    assert |todo - {m} + next| == |todo| - 1 + |next|;
  }

  /** The search starts from the children of `n`. */
  lemma ChildrenReached(n: Node, seen: set<Node>, doc: set<Node>)
    requires n in doc && ChildrenClosed(doc) && seen == set c | c in n.children
    ensures Reached(n, seen, doc)
  {
    forall c | c in n.children ensures Below(n, c, doc) {
      assert ChildPath(n, [c], doc);
    }
  }

  /** One turn of the search: take a waiting node; stop if it is in class
      `cls`, otherwise let its unreached children wait in turn. */
  method Visit(n: Node, cls: string, seen: set<Node>, todo: set<Node>, ghost doc: set<Node>)
      returns (found: bool, seen': set<Node>, todo': set<Node>)
    requires n in doc && ChildrenClosed(doc) && todo != {}
    requires todo <= seen && Reached(n, seen, doc) && Explored(cls, seen, todo)
    ensures todo' <= seen' && Reached(n, seen', doc)
    ensures found ==> ClassBelow(n, cls, doc)
    ensures !found ==> Explored(cls, seen', todo')
    ensures |doc - seen'| + |todo'| < |doc - seen| + |todo|
  {
    var m :| m in todo;
    if cls in m.classes {
      assert |todo - {m}| == |todo| - 1;
      FoundBelow(n, m, cls, doc);
      return true, seen, todo - {m};
    }
    var next := (set c | c in m.children) - seen;
    ExpandReached(n, m, seen, next, doc);
    ExpandExplored(cls, m, seen, todo, next);
    ExpandShrinks(m, seen, todo, next, doc);
    return false, seen + next, todo - {m} + next;
  }

  /** `n.querySelector('.' + cls) != null`: a search of the whole subtree of
      `n` through a work set, stopping at the first node in class `cls`. */
  method QuerySelector(n: Node, cls: string, ghost doc: set<Node>) returns (found: bool)
    requires n in doc && ChildrenClosed(doc)
    ensures found == ClassBelow(n, cls, doc)
  {
    var seen := set c | c in n.children;
    var todo := seen;
    found := false;
    ChildrenReached(n, seen, doc);
    while todo != {} && !found
      invariant todo <= seen && Reached(n, seen, doc)
      invariant found ==> ClassBelow(n, cls, doc)
      invariant !found ==> Explored(cls, seen, todo)
      decreases |doc - seen| + |todo|
    {
      found, seen, todo := Visit(n, cls, seen, todo, doc);
    }
    if !found {
      ExploredNoMatch(n, cls, seen, doc);
    }
  }
}
