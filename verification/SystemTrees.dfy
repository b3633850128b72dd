/**
 The tree of system groups: insertion at the first matching group in pre-order, or beside a direct child of the
 root, and the order in which systems run. Nodes are values, copied on insertion.
 */
module SystemTrees {
  import opened Common

  type Sys = nat

  datatype Node = Node(group: string, start: seq<Sys>, children: seq<Node>, end: seq<Sys>, enabled: bool)

  function EmptyGroup(group: string): Node {
    Node(group, [], [], [], true)
  }

  /** The systems one run executes: start systems, children, end systems; nothing when disabled. */
  function Trace(n: Node): seq<Sys> {
    if n.enabled then n.start + TraceAll(n.children) + n.end else []
  }

  function TraceAll(cs: seq<Node>): seq<Sys> {
    if cs == [] then [] else Trace(cs[0]) + TraceAll(cs[1..])
  }

  predicate AllEnabled(n: Node) {
    n.enabled && EachEnabled(n.children)
  }

  predicate EachEnabled(cs: seq<Node>) {
    if cs == [] then true else AllEnabled(cs[0]) && EachEnabled(cs[1..])
  }

  /** What an insertion does to the node it selects. */
  datatype Edit = AddStart(sys: Sys) | AddEnd(sys: Sys) | FirstChild(node: Node) | LastChild(node: Node)

  function ApplyEdit(n: Node, e: Edit): Node {
    match e
    case AddStart(s) => n.(start := n.start + [s])
    case AddEnd(s) => n.(end := n.end + [s])
    case FirstChild(c) => n.(children := [c] + n.children)
    case LastChild(c) => n.(children := n.children + [c])
  }

  /** Edits the first node of the group, in the order the recursive search visits them. */
  function EditFirst(n: Node, g: string, e: Edit): Option<Node> {
    if n.group == g then Some(ApplyEdit(n, e))
    else
      match EditEach(n.children, g, e)
      case None => None
      case Some(cs) => Some(n.(children := cs))
  }

  function EditEach(cs: seq<Node>, g: string, e: Edit): Option<seq<Node>> {
    if cs == [] then None
    else
      match EditFirst(cs[0], g, e)
      case Some(c) => Some([c] + cs[1..])
      case None =>
        match EditEach(cs[1..], g, e)
        case None => None
        case Some(rest) => Some([cs[0]] + rest)
  }

  /** Index of the first child of the group, or the number of children. */
  function ChildIndex(cs: seq<Node>, g: string): (i: nat)
    ensures i <= |cs| && (i < |cs| ==> cs[i].group == g) && forall j :: 0 <= j < i ==> cs[j].group != g
  {
    if cs == [] || cs[0].group == g then 0 else 1 + ChildIndex(cs[1..], g)
  }

  function InsertBeside(n: Node, g: string, c: Node, before: bool): Option<Node> {
    var i := ChildIndex(n.children, g);
    if i == |n.children| then None
    else
      var at := if before then i else i + 1;
      Some(n.(children := n.children[..at] + [c] + n.children[at..]))
  }

  function InsertNode(n: Node, c: Node, g: string, before: bool, inside: bool): Option<Node> {
    if inside then EditFirst(n, g, if before then FirstChild(c) else LastChild(c)) else InsertBeside(n, g, c, before)
  }

  function InsertSystem(n: Node, s: Sys, g: string, atStart: bool): Option<Node> {
    EditFirst(n, g, if atStart then AddStart(s) else AddEnd(s))
  }

  // ---------- pre-order ----------

  function Preorder(n: Node): seq<Node> {
    [n] + PreorderAll(n.children)
  }

  function PreorderAll(cs: seq<Node>): seq<Node> {
    if cs == [] then [] else Preorder(cs[0]) + PreorderAll(cs[1..])
  }

  ghost predicate HasGroup(ns: seq<Node>, g: string) {
    exists k :: 0 <= k < |ns| && ns[k].group == g
  }

  ghost predicate IsFirst(ns: seq<Node>, g: string, x: Node) {
    exists k :: 0 <= k < |ns| && ns[k] == x && x.group == g && forall j :: 0 <= j < k ==> ns[j].group != g
  }

  /** The first node of the group, with the place in the run trace where its own trace begins. */
  function FirstAt(n: Node, g: string): Option<(nat, Node)> {
    if n.group == g then Some((0, n))
    else
      match FirstAtEach(n.children, g)
      case None => None
      case Some((o, x)) => Some((|n.start| + o, x))
  }

  function FirstAtEach(cs: seq<Node>, g: string): Option<(nat, Node)> {
    if cs == [] then None
    else
      match FirstAt(cs[0], g)
      case Some(r) => Some(r)
      case None =>
        match FirstAtEach(cs[1..], g)
        case None => None
        case Some((o, x)) => Some((|Trace(cs[0])| + o, x))
  }

  lemma HasGroupAppend(a: seq<Node>, b: seq<Node>, g: string)
    ensures HasGroup(a + b, g) <==> HasGroup(a, g) || HasGroup(b, g)
  {
    var c := a + b;
    if k :| 0 <= k < |a| && a[k].group == g { assert c[k].group == g; }
    if k :| 0 <= k < |b| && b[k].group == g { assert c[|a| + k].group == g; }
    if k :| 0 <= k < |c| && c[k].group == g {
      assert k < |a| ==> a[k].group == g;
      assert k >= |a| ==> b[k - |a|].group == g;
    }
  }

  lemma IsFirstAppend(a: seq<Node>, b: seq<Node>, g: string, x: Node)
    ensures IsFirst(a, g, x) ==> IsFirst(a + b, g, x)
    ensures !HasGroup(a, g) && IsFirst(b, g, x) ==> IsFirst(a + b, g, x)
  {
    var c := a + b;
    if k :| 0 <= k < |a| && a[k] == x && x.group == g && forall j :: 0 <= j < k ==> a[j].group != g {
      assert c[k] == x;
    }
    if !HasGroup(a, g) {
      if k :| 0 <= k < |b| && b[k] == x && x.group == g && forall j :: 0 <= j < k ==> b[j].group != g {
        assert c[|a| + k] == x;
      }
    }
  }

  /** The node found is the first of its group in pre-order, and it is found iff there is one. */
  lemma {:induction false} FirstAtIsPreorder(n: Node, g: string)
    ensures FirstAt(n, g).Some? <==> HasGroup(Preorder(n), g)
    ensures FirstAt(n, g).Some? ==> IsFirst(Preorder(n), g, FirstAt(n, g).value.1)
  {
    FirstAtEachIsPreorder(n.children, g);
    HasGroupAppend([n], PreorderAll(n.children), g);
    if n.group == g {
      assert Preorder(n)[0] == n;
    } else if FirstAt(n, g).Some? {
      IsFirstAppend([n], PreorderAll(n.children), g, FirstAt(n, g).value.1);
    }
  }

  lemma {:induction false} FirstAtEachIsPreorder(cs: seq<Node>, g: string)
    ensures FirstAtEach(cs, g).Some? <==> HasGroup(PreorderAll(cs), g)
    ensures FirstAtEach(cs, g).Some? ==> IsFirst(PreorderAll(cs), g, FirstAtEach(cs, g).value.1)
  {
    if cs == [] {
    } else {
      FirstAtIsPreorder(cs[0], g);
      FirstAtEachIsPreorder(cs[1..], g);
      HasGroupAppend(Preorder(cs[0]), PreorderAll(cs[1..]), g);
      if FirstAtEach(cs, g).Some? {
        IsFirstAppend(Preorder(cs[0]), PreorderAll(cs[1..]), g, FirstAtEach(cs, g).value.1);
      }
    }
  }

  /** Insertion reports success exactly when the tree has a node of the group. */
  lemma {:induction false} EditFoundIff(n: Node, g: string, e: Edit)
    ensures EditFirst(n, g, e).Some? <==> FirstAt(n, g).Some?
  {
    EditEachFoundIff(n.children, g, e);
  }

  lemma {:induction false} EditEachFoundIff(cs: seq<Node>, g: string, e: Edit)
    ensures EditEach(cs, g, e).Some? <==> FirstAtEach(cs, g).Some?
  {
    if cs == [] {
    } else {
      EditFoundIff(cs[0], g, e);
      EditEachFoundIff(cs[1..], g, e);
    }
  }

  // ---------- run order ----------

  /** `r` is `t` with the `len` systems from `o` on replaced. */
  predicate Replaced(t: seq<Sys>, r: seq<Sys>, o: nat, len: nat, mid: seq<Sys>) {
    o + len <= |t| && r == t[..o] + mid + t[o + len..]
  }

  /** `x`'s own trace sits at `o` in `t`, and `r` has the edited node's trace there instead. */
  predicate Swapped(t: seq<Sys>, r: seq<Sys>, o: nat, x: Node, e: Edit) {
    && x.enabled
    && Replaced(t, r, o, |Trace(x)|, Trace(ApplyEdit(x, e)))
    && t[o..o + |Trace(x)|] == Trace(x)
  }

  lemma ReplacedInside(a: seq<Sys>, t: seq<Sys>, r: seq<Sys>, c: seq<Sys>, o: nat, len: nat, mid: seq<Sys>)
    requires Replaced(t, r, o, len, mid)
    ensures Replaced(a + t + c, a + r + c, |a| + o, len, mid)
    ensures (a + t + c)[|a| + o..|a| + o + len] == t[o..o + len]
  {
  }

  lemma SwappedInside(a: seq<Sys>, t: seq<Sys>, r: seq<Sys>, c: seq<Sys>, o: nat, x: Node, e: Edit)
    requires Swapped(t, r, o, x, e)
    ensures Swapped(a + t + c, a + r + c, |a| + o, x, e)
  {
    hide Trace, Replaced;
    ReplacedInside(a, t, r, c, o, |Trace(x)|, Trace(ApplyEdit(x, e)));
  }

  lemma TraceAllCons(c: Node, rest: seq<Node>)
    ensures TraceAll([c] + rest) == Trace(c) + TraceAll(rest)
  {
    hide Trace;
    assert ([c] + rest)[1..] == rest;
  }

  /** Exactly the trace of the first node of the group is replaced by the edited node's trace. */
  lemma {:induction false} EditTrace(n: Node, g: string, e: Edit)
    requires AllEnabled(n) && FirstAt(n, g).Some? && EditFirst(n, g, e).Some?
    ensures var (o, x) := FirstAt(n, g).value; Swapped(Trace(n), Trace(EditFirst(n, g, e).value), o, x, e)
  {
    hide TraceAll, ApplyEdit;
    var (o, x) := FirstAt(n, g).value;
    if n.group == g {
      assert Trace(n)[..0] == [] && Trace(n)[|Trace(n)|..] == [];
    } else {
      hide Swapped;
      EditEachTrace(n.children, g, e);
      var cs := EditEach(n.children, g, e).value;
      SwappedInside(n.start, TraceAll(n.children), TraceAll(cs), n.end, o - |n.start|, x, e);
    }
  }

  lemma {:induction false} EditEachTrace(cs: seq<Node>, g: string, e: Edit)
    requires EachEnabled(cs) && FirstAtEach(cs, g).Some? && EditEach(cs, g, e).Some?
    ensures var (o, x) := FirstAtEach(cs, g).value; Swapped(TraceAll(cs), TraceAll(EditEach(cs, g, e).value), o, x, e)
  {
    hide Trace, TraceAll, Swapped, FirstAt, EditFirst, AllEnabled, ApplyEdit;
    var (o, x) := FirstAtEach(cs, g).value;
    var head, tail := cs[0], cs[1..];
    assert cs == [head] + tail;
    EditFoundIff(head, g, e);
    TraceAllCons(head, tail);
    if FirstAt(head, g).Some? {
      EditTrace(head, g, e);
      var c := EditFirst(head, g, e).value;
      TraceAllCons(c, tail);
      SwappedInside([], Trace(head), Trace(c), TraceAll(tail), o, x, e);
      assert [] + Trace(head) == Trace(head) && [] + Trace(c) == Trace(c);
    } else {
      EditEachTrace(tail, g, e);
      var rest := EditEach(tail, g, e).value;
      TraceAllCons(head, rest);
      SwappedInside(Trace(head), TraceAll(tail), TraceAll(rest), [], o - |Trace(head)|, x, e);
      assert Trace(head) + TraceAll(tail) + [] == Trace(head) + TraceAll(tail);
      assert Trace(head) + TraceAll(rest) + [] == Trace(head) + TraceAll(rest);
    }
  }

  /** The systems an insertion brings in, in run order. */
  function Block(e: Edit): seq<Sys> {
    match e
    case AddStart(s) => [s]
    case AddEnd(s) => [s]
    case FirstChild(c) => Trace(c)
    case LastChild(c) => Trace(c)
  }

  /** Where in the selected node's trace the block goes. */
  function BlockOffset(x: Node, e: Edit): nat {
    match e
    case AddStart(_) => |x.start|
    case AddEnd(_) => |x.start| + |TraceAll(x.children)| + |x.end|
    case FirstChild(_) => |x.start|
    case LastChild(_) => |x.start| + |TraceAll(x.children)|
  }

  lemma {:induction false} TraceAllAppend(a: seq<Node>, b: seq<Node>)
    ensures TraceAll(a + b) == TraceAll(a) + TraceAll(b)
  {
    if a == [] {
      assert a + b == b;
    } else {
      assert (a + b)[1..] == a[1..] + b;
      TraceAllAppend(a[1..], b);
    }
  }

  predicate Inserted(t: seq<Sys>, r: seq<Sys>, k: nat, block: seq<Sys>) {
    k <= |t| && r == t[..k] + block + t[k..]
  }

  lemma InsertedBetween(a: seq<Sys>, b: seq<Sys>, block: seq<Sys>)
    ensures Inserted(a + b, a + block + b, |a|, block)
  {
    assert (a + b)[..|a|] == a && (a + b)[|a|..] == b;
  }

  lemma EditedNodeTrace(x: Node, e: Edit)
    requires x.enabled
    ensures Inserted(Trace(x), Trace(ApplyEdit(x, e)), BlockOffset(x, e), Block(e))
  {
    hide TraceAll, Inserted;
    var (s, m, t) := (x.start, TraceAll(x.children), x.end);
    match e
    case AddStart(y) =>
      InsertedBetween(s, m + t, [y]);
      assert s + m + t == s + (m + t) && s + [y] + m + t == s + [y] + (m + t);
    case AddEnd(y) =>
      InsertedBetween(s + m + t, [], [y]);
      assert s + m + t + [] == s + m + t && s + m + (t + [y]) == s + m + t + [y] + [];
    case FirstChild(c) =>
      hide Trace;
      FirstChildTrace(x, c);
    case LastChild(c) =>
      hide Trace;
      LastChildTrace(x, c);
  }

  lemma TraceAllNone()
    ensures TraceAll([]) == []
  {
  }

  lemma TraceUnfold(x: Node)
    requires x.enabled
    ensures Trace(x) == x.start + TraceAll(x.children) + x.end
  {
  }

  lemma FirstChildTrace(x: Node, c: Node)
    requires x.enabled
    ensures Inserted(Trace(x), Trace(ApplyEdit(x, FirstChild(c))), |x.start|, Trace(c))
  {
    hide Trace, TraceAll, Inserted;
    var (s, m, t) := (x.start, TraceAll(x.children), x.end);
    TraceUnfold(x);
    TraceUnfold(ApplyEdit(x, FirstChild(c)));
    TraceAllCons(c, x.children);
    InsertedBetween(s, m + t, Trace(c));
    assert s + m + t == s + (m + t) && s + (Trace(c) + m) + t == s + Trace(c) + (m + t);
  }

  lemma LastChildTrace(x: Node, c: Node)
    requires x.enabled
    ensures Inserted(Trace(x), Trace(ApplyEdit(x, LastChild(c))), |x.start| + |TraceAll(x.children)|, Trace(c))
  {
    hide Trace, Inserted;
    var (s, m, t) := (x.start, TraceAll(x.children), x.end);
    TraceUnfold(x);
    TraceUnfold(ApplyEdit(x, LastChild(c)));
    assert TraceAll(x.children + [c]) == m + Trace(c) by {
      TraceAllAppend(x.children, [c]);
      TraceAllCons(c, []);
      assert [c] + [] == [c] && Trace(c) + TraceAll([]) == Trace(c);
    }
    hide TraceAll;
    InsertedBetween(s + m, t, Trace(c));
    assert s + (m + Trace(c)) + t == s + m + Trace(c) + t;
  }

  lemma InsertedInside(t: seq<Sys>, r: seq<Sys>, o: nat, x: seq<Sys>, x': seq<Sys>, k: nat, block: seq<Sys>)
    requires Replaced(t, r, o, |x|, x') && t[o..o + |x|] == x && Inserted(x, x', k, block)
    ensures Inserted(t, r, o + k, block)
  {
    assert t[..o + k] == t[..o] + x[..k];
    assert t[o + k..] == x[k..] + t[o + |x|..];
  }

  /**
   With all nodes enabled, inserting inside a group puts exactly one contiguous block into the run
   trace, at the group's first node in pre-order; it succeeds iff the group exists.
   */
  lemma InsertInsideTrace(n: Node, g: string, e: Edit)
    requires AllEnabled(n)
    ensures EditFirst(n, g, e).Some? <==> HasGroup(Preorder(n), g)
    ensures EditFirst(n, g, e).Some? ==>
      FirstAt(n, g).Some? && var (o, x) := FirstAt(n, g).value;
      && IsFirst(Preorder(n), g, x)
      && Inserted(Trace(n), Trace(EditFirst(n, g, e).value), o + BlockOffset(x, e), Block(e))
  {
    hide Trace, ApplyEdit, FirstAt, EditFirst, AllEnabled, Preorder, HasGroup, IsFirst, BlockOffset, Block, Inserted;
    EditFoundIff(n, g, e);
    FirstAtIsPreorder(n, g);
    if EditFirst(n, g, e).Some? {
      EditTrace(n, g, e);
      var (o, x) := FirstAt(n, g).value;
      EditedNodeTrace(x, e);
      InsertedInside(Trace(n), Trace(EditFirst(n, g, e).value), o, Trace(x), Trace(ApplyEdit(x, e)), BlockOffset(x, e),
        Block(e));
    }
  }

  /** Beside a direct child the block goes immediately before or after that child's trace. */
  lemma InsertBesideTrace(n: Node, g: string, c: Node, before: bool)
    requires n.enabled
    ensures InsertBeside(n, g, c, before).Some? <==> HasGroup(n.children, g)
    ensures InsertBeside(n, g, c, before).Some? ==>
      var i := ChildIndex(n.children, g);
      var at := if before then i else i + 1;
      i < |n.children| && Inserted(Trace(n), Trace(InsertBeside(n, g, c, before).value),
        |n.start| + |TraceAll(n.children[..at])|, Trace(c))
  {
    var i := ChildIndex(n.children, g);
    if i < |n.children| {
      assert n.children[i].group == g;
      hide Trace, TraceAll, Inserted, ChildIndex;
      BesideTrace(n, c, if before then i else i + 1);
    }
  }

  lemma BesideTrace(n: Node, c: Node, at: nat)
    requires n.enabled && at <= |n.children|
    ensures Inserted(
      Trace(n), Trace(n.(children := n.children[..at] + [c] + n.children[at..])),
      |n.start| + |TraceAll(n.children[..at])|, Trace(c))
  {
    hide Trace, TraceAll, Inserted;
    var a, b := n.children[..at], n.children[at..];
    var (s, t, m, p) := (n.start, n.end, TraceAll(a), TraceAll(b));
    assert n.children == a + b && a + [c] + b == a + ([c] + b);
    TraceUnfold(n);
    TraceUnfold(n.(children := a + [c] + b));
    TraceAllAppend(a, b);
    TraceAllAppend(a, [c] + b);
    TraceAllCons(c, b);
    InsertedBetween(s + m, p + t, Trace(c));
    assert s + (m + p) + t == s + m + (p + t) && s + (m + (Trace(c) + p)) + t == s + m + Trace(c) + (p + t);
  }

  /** Adding an empty group, anywhere, leaves the run trace unchanged. */
  lemma AddGroupKeepsTrace(n: Node, newGroup: string, g: string, before: bool, inside: bool)
    requires AllEnabled(n) && InsertNode(n, EmptyGroup(newGroup), g, before, inside).Some?
    ensures Trace(InsertNode(n, EmptyGroup(newGroup), g, before, inside).value) == Trace(n)
  {
    var c := EmptyGroup(newGroup);
    assert Trace(c) == [];
    hide Trace, TraceAll, EditFirst, InsertBeside, AllEnabled, HasGroup, IsFirst, FirstAt, Preorder, ChildIndex,
      Inserted;
    if inside {
      var e := if before then FirstChild(c) else LastChild(c);
      InsertInsideTrace(n, g, e);
      var (o, x) := FirstAt(n, g).value;
      InsertedNothing(Trace(n), Trace(EditFirst(n, g, e).value), o + BlockOffset(x, e));
    } else {
      EnabledRoot(n);
      InsertBesideTrace(n, g, c, before);
      var i := ChildIndex(n.children, g);
      var at := if before then i else i + 1;
      InsertedNothing(Trace(n), Trace(InsertBeside(n, g, c, before).value), |n.start| + |TraceAll(n.children[..at])|);
    }
  }

  lemma EnabledRoot(n: Node)
    requires AllEnabled(n)
    ensures n.enabled
  {
  }

  lemma InsertedNothing(t: seq<Sys>, r: seq<Sys>, k: nat)
    requires Inserted(t, r, k, [])
    ensures r == t
  {
  }

  // ---------- where the flags of a call put what is inserted ----------

  /** The first node of the group, in pre-order, runs as one block of the trace that begins at `o`. */
  ghost predicate RunsFrom(n: Node, g: string, o: nat, x: Node) {
    && IsFirst(Preorder(n), g, x) && x.enabled
    && o + |Trace(x)| <= |Trace(n)| && Trace(n)[o..o + |Trace(x)|] == Trace(x)
  }

  lemma FirstRunsFrom(n: Node, g: string)
    requires AllEnabled(n) && FirstAt(n, g).Some?
    ensures var (o, x) := FirstAt(n, g).value; RunsFrom(n, g, o, x)
  {
    hide Trace, ApplyEdit, FirstAt, EditFirst, AllEnabled, Preorder, HasGroup, IsFirst;
    FirstAtIsPreorder(n, g);
    EditFoundIff(n, g, AddEnd(0));
    EditTrace(n, g, AddEnd(0));
  }

  /**
   Some node of the group, the first one in pre-order, has the new system run last among its start systems and before
   its children, or as the very last thing it does.
   */
  ghost predicate SystemPlaced(n: Node, r: Node, s: Sys, g: string, atStart: bool) {
    exists o: nat, x :: RunsFrom(n, g, o, x) &&
      Inserted(Trace(n), Trace(r), o + if atStart then |x.start| else |Trace(x)|, [s])
  }

  /** With all nodes enabled, a system is added iff the group exists, and `atStart` says where it runs. */
  lemma InsertSystemTrace(n: Node, s: Sys, g: string, atStart: bool)
    requires AllEnabled(n)
    ensures InsertSystem(n, s, g, atStart).Some? <==> HasGroup(Preorder(n), g)
    ensures InsertSystem(n, s, g, atStart).Some? ==>
      SystemPlaced(n, InsertSystem(n, s, g, atStart).value, s, g, atStart)
  {
    var e := if atStart then AddStart(s) else AddEnd(s);
    hide Trace, TraceAll, FirstAt, EditFirst, AllEnabled, Preorder, HasGroup, IsFirst, Inserted, ApplyEdit, RunsFrom;
    InsertInsideTrace(n, g, e);
    if EditFirst(n, g, e).Some? {
      FirstRunsFrom(n, g);
      var (o, x) := FirstAt(n, g).value;
      assert RunsFrom(n, g, o, x);
      FirstIsEnabled(n, g, o, x);
      TraceUnfold(x);
    }
  }

  lemma FirstIsEnabled(n: Node, g: string, o: nat, x: Node)
    requires RunsFrom(n, g, o, x)
    ensures x.enabled
  {
  }

  /**
   The new node's systems run inside the first node of the group: after its start systems and before its other
   children, or after its children and before its end systems.
   */
  ghost predicate NodePlaced(n: Node, r: Node, c: Node, g: string, before: bool) {
    exists o: nat, x :: RunsFrom(n, g, o, x) &&
      Inserted(Trace(n), Trace(r), o + if before then |x.start| else |x.start| + |TraceAll(x.children)|, Trace(c))
  }

  lemma InsertNodeInsideTrace(n: Node, c: Node, g: string, before: bool)
    requires AllEnabled(n)
    ensures InsertNode(n, c, g, before, true).Some? <==> HasGroup(Preorder(n), g)
    ensures InsertNode(n, c, g, before, true).Some? ==>
      NodePlaced(n, InsertNode(n, c, g, before, true).value, c, g, before)
  {
    var e := if before then FirstChild(c) else LastChild(c);
    hide Trace, TraceAll, FirstAt, EditFirst, AllEnabled, Preorder, HasGroup, IsFirst, Inserted, ApplyEdit, RunsFrom;
    InsertInsideTrace(n, g, e);
    if EditFirst(n, g, e).Some? {
      FirstRunsFrom(n, g);
      var (o, x) := FirstAt(n, g).value;
      assert RunsFrom(n, g, o, x);
    }
  }

  // ---------- disabled nodes ----------

  /** Following child indices from `n`, every node on the way is enabled, and the last one has the system. */
  ghost predicate EnabledPath(n: Node, path: seq<nat>, s: Sys)
    decreases |path|
  {
    && n.enabled
    && if path == [] then s in n.start || s in n.end
       else path[0] < |n.children| && EnabledPath(n.children[path[0]], path[1..], s)
  }

  lemma {:induction false} MemberRuns(cs: seq<Node>, i: nat, s: Sys)
    requires i < |cs| && s in Trace(cs[i])
    ensures s in TraceAll(cs)
  {
    if i > 0 {
      MemberRuns(cs[1..], i - 1, s);
    }
  }

  lemma {:induction false} RunsInMember(cs: seq<Node>, s: Sys) returns (i: nat)
    requires s in TraceAll(cs)
    ensures i < |cs| && s in Trace(cs[i])
  {
    if s in Trace(cs[0]) {
      i := 0;
    } else {
      var j := RunsInMember(cs[1..], s);
      i := j + 1;
    }
  }

  lemma {:induction false} PathRuns(n: Node, path: seq<nat>, s: Sys)
    requires EnabledPath(n, path, s)
    ensures s in Trace(n)
    decreases |path|
  {
    if path != [] {
      PathRuns(n.children[path[0]], path[1..], s);
      MemberRuns(n.children, path[0], s);
    }
  }

  lemma {:induction false} RunsOnPath(n: Node, s: Sys) returns (path: seq<nat>)
    requires s in Trace(n)
    ensures EnabledPath(n, path, s)
    decreases n
  {
    if s in n.start || s in n.end {
      path := [];
    } else {
      var i := RunsInMember(n.children, s);
      var rest := RunsOnPath(n.children[i], s);
      path := [i] + rest;
      assert path[1..] == rest;
    }
  }

  ghost predicate InEnabledNode(n: Node, s: Sys) {
    exists path: seq<nat> :: EnabledPath(n, path, s)
  }

  /** A system runs exactly when it stands in some node that is enabled with everything above it. */
  lemma RunsIff(n: Node, s: Sys)
    ensures s in Trace(n) <==> InEnabledNode(n, s)
  {
    if s in Trace(n) {
      var path := RunsOnPath(n, s);
      assert EnabledPath(n, path, s);
    }
    if InEnabledNode(n, s) {
      var path: seq<nat> :| EnabledPath(n, path, s);
      PathRuns(n, path, s);
    }
  }

  // ---------- groups that are added ----------

  /** `r` has the groups of `n` and `c`, and no disabled node if neither has one. */
  ghost predicate Extends(n: Node, r: Node, c: Node) {
    && (forall h :: HasGroup(Preorder(r), h) <==> HasGroup(Preorder(n), h) || HasGroup(Preorder(c), h))
    && (AllEnabled(n) && AllEnabled(c) ==> AllEnabled(r))
  }

  ghost predicate EachExtends(cs: seq<Node>, rs: seq<Node>, c: Node) {
    && (forall h :: HasGroup(PreorderAll(rs), h) <==> HasGroup(PreorderAll(cs), h) || HasGroup(Preorder(c), h))
    && (EachEnabled(cs) && AllEnabled(c) ==> EachEnabled(rs))
  }

  lemma {:induction false} ListInsertExtends(a: seq<Node>, c: Node, b: seq<Node>)
    ensures EachExtends(a + b, a + [c] + b, c)
  {
    if a == [] {
      assert a + b == b && a + [c] + b == [c] + b && ([c] + b)[1..] == b;
      forall h ensures HasGroup(PreorderAll([c] + b), h) <==> HasGroup(PreorderAll(b), h) || HasGroup(Preorder(c), h) {
        HasGroupAppend(Preorder(c), PreorderAll(b), h);
      }
    } else {
      var t := a[1..];
      ListInsertExtends(t, c, b);
      assert (a + b)[1..] == t + b && (a + [c] + b)[1..] == t + [c] + b;
      HeadExtends(a[0], t + b, t + [c] + b, c);
      assert a + b == [a[0]] + (t + b) && a + [c] + b == [a[0]] + (t + [c] + b);
    }
  }

  lemma HeadExtends(head: Node, cs: seq<Node>, rs: seq<Node>, c: Node)
    requires EachExtends(cs, rs, c)
    ensures EachExtends([head] + cs, [head] + rs, c)
  {
    hide Preorder, AllEnabled;
    assert ([head] + cs)[1..] == cs && ([head] + rs)[1..] == rs;
    forall h
      ensures HasGroup(PreorderAll([head] + rs), h) <==>
        HasGroup(PreorderAll([head] + cs), h) || HasGroup(Preorder(c), h)
    {
      HasGroupAppend(Preorder(head), PreorderAll(cs), h);
      HasGroupAppend(Preorder(head), PreorderAll(rs), h);
    }
  }

  lemma TailExtends(x: Node, r: Node, cs: seq<Node>, c: Node)
    requires Extends(x, r, c)
    ensures EachExtends([x] + cs, [r] + cs, c)
  {
    hide Preorder, AllEnabled;
    assert ([x] + cs)[1..] == cs && ([r] + cs)[1..] == cs;
    forall h
      ensures HasGroup(PreorderAll([r] + cs), h) <==> HasGroup(PreorderAll([x] + cs), h) || HasGroup(Preorder(c), h)
    {
      HasGroupAppend(Preorder(x), PreorderAll(cs), h);
      HasGroupAppend(Preorder(r), PreorderAll(cs), h);
    }
  }

  lemma ChildrenExtend(n: Node, cs: seq<Node>, c: Node)
    requires EachExtends(n.children, cs, c)
    ensures Extends(n, n.(children := cs), c)
  {
    var r := n.(children := cs);
    forall h ensures HasGroup(Preorder(r), h) <==> HasGroup(Preorder(n), h) || HasGroup(Preorder(c), h) {
      HasGroupAppend([n], PreorderAll(n.children), h);
      HasGroupAppend([r], PreorderAll(cs), h);
      assert HasGroup([n], h) <==> n.group == h by { assert [n][0] == n; }
      assert HasGroup([r], h) <==> r.group == h by { assert [r][0] == r; }
    }
  }

  lemma {:induction false} EditExtends(n: Node, g: string, e: Edit, c: Node)
    requires (e == FirstChild(c) || e == LastChild(c)) && EditFirst(n, g, e).Some?
    ensures Extends(n, EditFirst(n, g, e).value, c)
  {
    hide Extends, EachExtends;
    if n.group == g {
      if e.FirstChild? {
        ListInsertExtends([], c, n.children);
        assert [] + n.children == n.children && [] + [c] + n.children == [c] + n.children;
        ChildrenExtend(n, [c] + n.children, c);
      } else {
        ListInsertExtends(n.children, c, []);
        assert n.children + [] == n.children && n.children + [c] + [] == n.children + [c];
        ChildrenExtend(n, n.children + [c], c);
      }
    } else {
      EditEachExtends(n.children, g, e, c);
      ChildrenExtend(n, EditEach(n.children, g, e).value, c);
    }
  }

  lemma {:induction false} EditEachExtends(cs: seq<Node>, g: string, e: Edit, c: Node)
    requires (e == FirstChild(c) || e == LastChild(c)) && EditEach(cs, g, e).Some?
    ensures EachExtends(cs, EditEach(cs, g, e).value, c)
  {
    hide Extends, EachExtends;
    assert cs == [cs[0]] + cs[1..];
    if EditFirst(cs[0], g, e).Some? {
      EditExtends(cs[0], g, e, c);
      TailExtends(cs[0], EditFirst(cs[0], g, e).value, cs[1..], c);
    } else {
      EditEachExtends(cs[1..], g, e, c);
      HeadExtends(cs[0], cs[1..], EditEach(cs[1..], g, e).value, c);
    }
  }

  /** Inserting a node adds its groups, keeps all others, and disables nothing. */
  lemma InsertExtends(n: Node, c: Node, g: string, before: bool, inside: bool)
    requires InsertNode(n, c, g, before, inside).Some?
    ensures Extends(n, InsertNode(n, c, g, before, inside).value, c)
  {
    hide Extends, EachExtends, EditFirst;
    if inside {
      EditExtends(n, g, if before then FirstChild(c) else LastChild(c), c);
    } else {
      var i := ChildIndex(n.children, g);
      var at := if before then i else i + 1;
      ListInsertExtends(n.children[..at], c, n.children[at..]);
      assert n.children[..at] + n.children[at..] == n.children;
      ChildrenExtend(n, n.children[..at] + [c] + n.children[at..], c);
    }
  }

  /** A group that has just been created takes systems under its name, and they run. */
  lemma NewGroup(g: string, h: string)
    ensures AllEnabled(EmptyGroup(g)) && Trace(EmptyGroup(g)) == []
    ensures HasGroup(Preorder(EmptyGroup(g)), h) <==> h == g
  {
    assert Preorder(EmptyGroup(g)) == [EmptyGroup(g)];
    assert [EmptyGroup(g)][0].group == g;
  }

  /**
   Adding a group changes nothing that runs; afterwards a system can be added to the group by its name, and
   the run has that system more.
   */
  lemma GroupThenSystem(n: Node, h: string, g: string, before: bool, inside: bool, s: Sys, atStart: bool)
    requires AllEnabled(n) && InsertNode(n, EmptyGroup(h), g, before, inside).Some?
    ensures var m := InsertNode(n, EmptyGroup(h), g, before, inside).value;
      && AllEnabled(m) && Trace(m) == Trace(n)
      && InsertSystem(m, s, h, atStart).Some? && SystemPlaced(m, InsertSystem(m, s, h, atStart).value, s, h, atStart)
  {
    var c := EmptyGroup(h);
    AddGroupKeepsTrace(n, h, g, before, inside);
    NewGroup(h, h);
    hide Trace, AllEnabled, Preorder, HasGroup, InsertNode, InsertSystem, SystemPlaced;
    InsertExtends(n, c, g, before, inside);
    InsertSystemTrace(InsertNode(n, c, g, before, inside).value, s, h, atStart);
  }

  // ---------- the tree object ----------

  function Prefixed(kept: seq<Node>, edited: Option<seq<Node>>): Option<seq<Node>> {
    match edited
    case None => None
    case Some(rest) => Some(kept + rest)
  }

  lemma PrefixedTwice(a: seq<Node>, b: seq<Node>, edited: Option<seq<Node>>)
    ensures Prefixed(a, Prefixed(b, edited)) == Prefixed(a + b, edited)
  {
    if edited.Some? {
      assert a + (b + edited.value) == a + b + edited.value;
    }
  }

  lemma {:induction false} EditSkip(cs: seq<Node>, i: nat, g: string, e: Edit)
    requires i <= |cs| && forall j :: 0 <= j < i ==> EditFirst(cs[j], g, e).None?
    ensures EditEach(cs, g, e) == Prefixed(cs[..i], EditEach(cs[i..], g, e))
    decreases i
  {
    hide EditFirst;
    if i == 0 {
      assert cs[0..] == cs && cs[..0] == [];
      if EditEach(cs, g, e).Some? {
        assert [] + EditEach(cs, g, e).value == EditEach(cs, g, e).value;
      }
    } else {
      EditSkip(cs[1..], i - 1, g, e);
      assert EditEach(cs, g, e) == Prefixed([cs[0]], EditEach(cs[1..], g, e));
      PrefixedTwice([cs[0]], cs[1..][..i - 1], EditEach(cs[i..], g, e));
      assert cs[1..][i - 1..] == cs[i..] && cs[..i] == [cs[0]] + cs[1..][..i - 1];
    }
  }

  /** Editing the first child that accepts the edit, all before it having refused. */
  lemma EditAt(cs: seq<Node>, i: nat, g: string, e: Edit)
    requires i < |cs| && forall j :: 0 <= j < i ==> EditFirst(cs[j], g, e).None?
    requires EditFirst(cs[i], g, e).Some?
    ensures EditEach(cs, g, e) == Some(cs[i := EditFirst(cs[i], g, e).value])
  {
    hide EditFirst;
    var c := EditFirst(cs[i], g, e).value;
    EditSkip(cs, i, g, e);
    assert EditEach(cs[i..], g, e) == Some([c] + cs[i..][1..]);
    assert cs[..i] + ([c] + cs[i..][1..]) == cs[i := c];
  }

  /** The descent the three insertions share: try this node, then each child in turn until one succeeds. */
  method Descend(n: Node, g: string, e: Edit) returns (ok: bool, r: Node)
    ensures ok <==> EditFirst(n, g, e).Some?
    ensures r == if ok then EditFirst(n, g, e).value else n
    decreases n
  {
    hide ApplyEdit, EditEach;
    if n.group == g {
      return true, ApplyEdit(n, e);
    }
    var i := 0;
    while i < |n.children|
      invariant i <= |n.children| && forall j :: 0 <= j < i ==> EditFirst(n.children[j], g, e).None?
    {
      var found, c := Descend(n.children[i], g, e);
      if found {
        EditAt(n.children, i, g, e);
        return true, n.(children := n.children[i := c]);
      }
      i := i + 1;
    }
    EditNone(n.children, g, e);
    return false, n;
  }

  lemma EditNone(cs: seq<Node>, g: string, e: Edit)
    requires forall j :: 0 <= j < |cs| ==> EditFirst(cs[j], g, e).None?
    ensures EditEach(cs, g, e).None?
  {
    EditSkip(cs, |cs|, g, e);
  }

  method FindChild(cs: seq<Node>, g: string) returns (i: nat)
    ensures i == ChildIndex(cs, g)
  {
    i := 0;
    while i < |cs|
      invariant i <= |cs| && ChildIndex(cs, g) == i + ChildIndex(cs[i..], g)
    {
      if cs[i].group == g {
        return;
      }
      assert cs[i..][1..] == cs[i + 1..];
      i := i + 1;
    }
  }

  lemma TraceAllSnoc(cs: seq<Node>, i: nat)
    requires i < |cs|
    ensures TraceAll(cs[..i + 1]) == TraceAll(cs[..i]) + Trace(cs[i])
  {
    hide Trace;
    assert cs[..i + 1] == cs[..i] + [cs[i]] && [cs[i]] + [] == [cs[i]];
    TraceAllAppend(cs[..i], [cs[i]]);
    TraceAllCons(cs[i], []);
  }

  /** Appends the systems one run of the node executes to the log of what has run. */
  method RunNode(n: Node, log: seq<Sys>) returns (r: seq<Sys>)
    ensures r == log + Trace(n)
    decreases n
  {
    if !n.enabled {
      return log;
    }
    hide Trace, TraceAll;
    r := log;
    for i := 0 to |n.start|
      invariant r == log + n.start[..i]
    {
      r := r + [n.start[i]];
    }
    assert r == log + n.start;
    assert n.children[..0] == [] && TraceAll([]) == [] by { TraceAllNone(); }
    for i := 0 to |n.children|
      invariant r == log + n.start + TraceAll(n.children[..i])
    {
      r := RunNode(n.children[i], r);
      TraceAllSnoc(n.children, i);
    }
    assert n.children[..|n.children|] == n.children;
    for i := 0 to |n.end|
      invariant r == log + n.start + TraceAll(n.children) + n.end[..i]
    {
      r := r + [n.end[i]];
    }
    assert r == log + (n.start + TraceAll(n.children) + n.end);
    TraceUnfold(n);
  }

  class SystemTree {
    var root: Node

    constructor (rootGroup: string)
      ensures root == EmptyGroup(rootGroup) && AllEnabled(root) && Trace(root) == []
      ensures forall h :: HasGroup(Preorder(root), h) <==> h == rootGroup
    {
      forall h ensures HasGroup(Preorder(EmptyGroup(rootGroup)), h) <==> h == rootGroup { NewGroup(rootGroup, h); }
      NewGroup(rootGroup, "");
      root := EmptyGroup(rootGroup);
    }

    /** With `atStart` the system runs before the children of the group's first node, otherwise after all of it. */
    method AddSystem(s: Sys, g: string, atStart: bool) returns (ok: bool)
      modifies this
      ensures AllEnabled(old(root)) ==> (ok <==> HasGroup(Preorder(old(root)), g))
      ensures AllEnabled(old(root)) && ok ==> SystemPlaced(old(root), root, s, g, atStart)
      ensures ok <==> InsertSystem(old(root), s, g, atStart).Some?
      ensures root == if ok then InsertSystem(old(root), s, g, atStart).value else old(root)
    {
      ghost var n := root;
      ok, root := Descend(root, g, if atStart then AddStart(s) else AddEnd(s));
      hide Trace, AllEnabled, Preorder, HasGroup, SystemPlaced, EditFirst;
      if AllEnabled(n) { InsertSystemTrace(n, s, g, atStart); }
    }

    method AddSystemTreeNode(c: Node, g: string, before: bool, inside: bool) returns (ok: bool)
      modifies this
      ensures AllEnabled(old(root)) && ok && inside ==> NodePlaced(old(root), root, c, g, before)
      ensures ok <==> InsertNode(old(root), c, g, before, inside).Some?
      ensures root == if ok then InsertNode(old(root), c, g, before, inside).value else old(root)
    {
      hide EditFirst, ChildIndex;
      if inside {
        ghost var n := root;
        ok, root := Descend(root, g, if before then FirstChild(c) else LastChild(c));
        hide Trace, AllEnabled, Preorder, HasGroup, NodePlaced;
        if AllEnabled(n) { InsertNodeInsideTrace(n, c, g, before); }
        return;
      }
      var i := FindChild(root.children, g);
      if i == |root.children| {
        return false;
      }
      var at := if before then i else i + 1;
      root := root.(children := root.children[..at] + [c] + root.children[at..]);
      return true;
    }

    method AddSystemGroup(g: string, newGroup: string, before: bool, inside: bool) returns (ok: bool)
      modifies this
      ensures ok <==> InsertNode(old(root), EmptyGroup(newGroup), g, before, inside).Some?
      ensures root == if ok then InsertNode(old(root), EmptyGroup(newGroup), g, before, inside).value else old(root)
    {
      ok := AddSystemTreeNode(EmptyGroup(newGroup), g, before, inside);
    }
  }
}
