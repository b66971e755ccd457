/** The two traversals of the parent-graph pass over a children index: the depth-first search
    with an explicit frame stack, and the reachability sweep. */
module Graph {
  import opened Domain

  type Children = map<u64, seq<u64>>

  function Kids(children: Children, id: u64): seq<u64> {
    if id in children then children[id] else []
  }

  // ---- Walks and cycles ----

  predicate Edge(children: Children, nodes: set<u64>, u: u64, v: u64) {
    u in nodes && v in nodes && v in Kids(children, u)
  }

  predicate IsWalk(children: Children, nodes: set<u64>, w: seq<u64>) {
    w != [] && forall i :: 0 <= i < |w| - 1 ==> Edge(children, nodes, w[i], w[i + 1])
  }

  /** A walk of at least one edge back to where it started. */
  ghost predicate IsCycle(children: Children, nodes: set<u64>, w: seq<u64>) {
    |w| >= 2 && IsWalk(children, nodes, w) && w[0] == w[|w| - 1]
  }

  ghost predicate HasCycle(children: Children, nodes: set<u64>) {
    exists w :: IsCycle(children, nodes, w)
  }

  // ---- The depth-first search ----

  datatype Color = White | Gray | Black

  datatype Frame = Frame(id: u64, next: nat)

  /** The frame at `i` is gray and its cursor is within its children. */
  ghost predicate FrameOk(children: Children, colors: map<u64, Color>, stack: seq<Frame>, i: int)
    requires 0 <= i < |stack|
  {
    var f := stack[i];
    f.id in colors && colors[f.id] == Gray && f.next <= |Kids(children, f.id)|
  }

  /** The frame at `i` has just stepped to the frame above it. */
  ghost predicate SteppedTo(children: Children, stack: seq<Frame>, i: int)
    requires 0 <= i < |stack| - 1
  {
    var f := stack[i];
    1 <= f.next <= |Kids(children, f.id)| && Kids(children, f.id)[f.next - 1] == stack[i + 1].id
  }

  predicate OnStack(stack: seq<Frame>, id: u64) {
    exists i :: 0 <= i < |stack| && stack[i].id == id
  }

  ghost predicate StackOk(children: Children, colors: map<u64, Color>, stack: seq<Frame>) {
    && (forall i {:trigger FrameOk(children, colors, stack, i)} :: 0 <= i < |stack| ==> FrameOk(children, colors, stack, i))
    && (forall i, j :: 0 <= i < j < |stack| ==> stack[i].id != stack[j].id)
    && (forall i {:trigger SteppedTo(children, stack, i)} :: 0 <= i < |stack| - 1 ==> SteppedTo(children, stack, i))
    && (forall id {:trigger OnStack(stack, id)} :: id in colors && colors[id] == Gray ==> OnStack(stack, id))
  }

  /** Every child of the node finished `k`-th was finished before it. */
  ghost predicate ChildrenFirst(children: Children, nodes: set<u64>, order: seq<u64>, k: int)
    requires 0 <= k < |order|
  {
    forall c :: c in Kids(children, order[k]) && c in nodes ==> c in order[..k]
  }

  ghost predicate Topological(children: Children, nodes: set<u64>, order: seq<u64>) {
    forall k {:trigger ChildrenFirst(children, nodes, order, k)} :: 0 <= k < |order| ==> ChildrenFirst(children, nodes, order, k)
  }

  /** The children a frame has dealt with, the one it is waiting for excepted. */
  ghost predicate ScannedAt(children: Children, nodes: set<u64>, stack: seq<Frame>, order: seq<u64>, i: int)
    requires 0 <= i < |stack|
  {
    var done := if i == |stack| - 1 then stack[i].next else stack[i].next - 1;
    forall j :: 0 <= j < done && j < |Kids(children, stack[i].id)| && Kids(children, stack[i].id)[j] in nodes ==>
      Kids(children, stack[i].id)[j] in order
  }

  /** `order` lists the black nodes as they were finished. While no cycle was seen it is
      a topological order, and the scanned children of every frame are in it. */
  ghost predicate OrderOk(children: Children, colors: map<u64, Color>, stack: seq<Frame>, order: seq<u64>, clean: bool) {
    && (forall i, j :: 0 <= i < j < |order| ==> order[i] != order[j])
    && (forall id :: id in order <==> id in colors && colors[id] == Black)
    && (clean ==> Topological(children, colors.Keys, order))
    && (clean ==> forall i {:trigger ScannedAt(children, colors.Keys, stack, order, i)} ::
          0 <= i < |stack| ==> ScannedAt(children, colors.Keys, stack, order, i))
  }

  ghost predicate SearchOk(children: Children, colors: map<u64, Color>, stack: seq<Frame>, order: seq<u64>, clean: bool) {
    && StackOk(children, colors, stack)
    && OrderOk(children, colors, stack, order, clean)
    && (!clean ==> HasCycle(children, colors.Keys))
  }

  // ---- One lemma for each way a turn of the loop can go ----

  lemma StartKeeps(children: Children, colors: map<u64, Color>, order: seq<u64>, clean: bool, id: u64)
    requires SearchOk(children, colors, [], order, clean)
    requires id in colors && colors[id] == White
    ensures SearchOk(children, colors[id := Gray], [Frame(id, 0)], order, clean)
  {
    var colors', stack' := colors[id := Gray], [Frame(id, 0)];
    assert colors'.Keys == colors.Keys;
    forall k | k in colors ensures colors[k] == Gray ==> OnStack([], k) {}
    assert stack'[0].id == id && OnStack(stack', id);
    assert forall k :: 0 <= k < |order| && clean ==> ChildrenFirst(children, colors.Keys, order, k);
  }

  /** The top frame has no child left: it is finished. */
  lemma PopKeeps(children: Children, colors: map<u64, Color>, stack: seq<Frame>, order: seq<u64>, clean: bool)
    requires SearchOk(children, colors, stack, order, clean) && stack != []
    requires var top := stack[|stack| - 1]; top.next >= |Kids(children, top.id)|
    ensures var top := stack[|stack| - 1];
      SearchOk(children, colors[top.id := Black], stack[..|stack| - 1], order + [top.id], clean)
  {
    var n := |stack| - 1;
    var top, rest := stack[n], stack[..n];
    var colors', order' := colors[top.id := Black], order + [top.id];
    assert FrameOk(children, colors, stack, n);
    assert colors'.Keys == colors.Keys;
    forall i | 0 <= i < n ensures FrameOk(children, colors', rest, i) {
      assert FrameOk(children, colors, stack, i);
    }
    forall i | 0 <= i < n - 1 ensures SteppedTo(children, rest, i) {
      assert SteppedTo(children, stack, i);
    }
    forall id | id in colors' && colors'[id] == Gray ensures OnStack(rest, id) {
      assert OnStack(stack, id);
      var i :| 0 <= i < |stack| && stack[i].id == id;
      assert rest[i].id == id;
    }
    if clean {
      assert ScannedAt(children, colors.Keys, stack, order, n);
      forall k | 0 <= k < |order'| ensures ChildrenFirst(children, colors.Keys, order', k) {
        if k < |order| {
          assert ChildrenFirst(children, colors.Keys, order, k);
          assert order'[..k] == order[..k];
        } else {
          assert order'[..k] == order;
        }
      }
      forall i | 0 <= i < n ensures ScannedAt(children, colors.Keys, rest, order', i) {
        assert ScannedAt(children, colors.Keys, stack, order, i);
        if i == n - 1 { assert SteppedTo(children, stack, i); }
      }
    }
  }

  lemma TopIsKnown(children: Children, colors: map<u64, Color>, stack: seq<Frame>, order: seq<u64>, clean: bool)
    requires SearchOk(children, colors, stack, order, clean) && stack != []
    ensures stack[|stack| - 1].id in colors && colors[stack[|stack| - 1].id] == Gray
  {
    assert FrameOk(children, colors, stack, |stack| - 1);
  }

  function Advance(stack: seq<Frame>): seq<Frame>
    requires stack != []
  {
    var top := stack[|stack| - 1];
    stack[|stack| - 1 := Frame(top.id, top.next + 1)]
  }

  lemma AdvanceStack(children: Children, colors: map<u64, Color>, stack: seq<Frame>)
    requires StackOk(children, colors, stack) && stack != []
    requires stack[|stack| - 1].next < |Kids(children, stack[|stack| - 1].id)|
    ensures StackOk(children, colors, Advance(stack))
  {
    var next := Advance(stack);
    forall i | 0 <= i < |stack| ensures FrameOk(children, colors, next, i) {
      assert FrameOk(children, colors, stack, i);
    }
    forall i | 0 <= i < |stack| - 1 ensures SteppedTo(children, next, i) {
      assert SteppedTo(children, stack, i);
    }
    forall id | id in colors && colors[id] == Gray ensures OnStack(next, id) {
      assert OnStack(stack, id);
      var i :| 0 <= i < |stack| && stack[i].id == id;
      assert next[i].id == id;
    }
  }

  /** The child is unknown or already finished: it is passed over. */
  lemma SkipKeeps(children: Children, colors: map<u64, Color>, stack: seq<Frame>, order: seq<u64>, clean: bool)
    requires SearchOk(children, colors, stack, order, clean) && stack != []
    requires var top := stack[|stack| - 1];
      top.next < |Kids(children, top.id)|
      && (Kids(children, top.id)[top.next] in colors ==> colors[Kids(children, top.id)[top.next]] == Black)
    ensures SearchOk(children, colors, Advance(stack), order, clean)
  {
    AdvanceStack(children, colors, stack);
    if clean {
      forall i | 0 <= i < |stack| ensures ScannedAt(children, colors.Keys, Advance(stack), order, i) {
        assert ScannedAt(children, colors.Keys, stack, order, i);
      }
    }
  }

  /** The child is on the stack: the frames from it to the top close a cycle. */
  lemma BackEdgeKeeps(children: Children, colors: map<u64, Color>, stack: seq<Frame>, order: seq<u64>, clean: bool)
    requires SearchOk(children, colors, stack, order, clean) && stack != []
    requires var top := stack[|stack| - 1];
      top.next < |Kids(children, top.id)|
      && Kids(children, top.id)[top.next] in colors && colors[Kids(children, top.id)[top.next]] == Gray
    ensures SearchOk(children, colors, Advance(stack), order, false)
  {
    AdvanceStack(children, colors, stack);
    var n := |stack| - 1;
    var child := Kids(children, stack[n].id)[stack[n].next];
    assert OnStack(stack, child);
    var i :| 0 <= i < |stack| && stack[i].id == child;
    var w := seq(|stack| - i, k requires 0 <= k < |stack| - i => stack[i + k].id) + [child];
    forall k | 0 <= k < |w| - 1 ensures Edge(children, colors.Keys, w[k], w[k + 1]) {
      assert FrameOk(children, colors, stack, i + k);
      if k < |w| - 2 {
        assert FrameOk(children, colors, stack, i + k + 1);
        assert SteppedTo(children, stack, i + k);
      }
    }
    assert IsCycle(children, colors.Keys, w);
  }

  /** The child is new: it becomes gray and gets a frame. */
  lemma PushKeeps(children: Children, colors: map<u64, Color>, stack: seq<Frame>, order: seq<u64>, clean: bool)
    requires SearchOk(children, colors, stack, order, clean) && stack != []
    requires var top := stack[|stack| - 1];
      top.next < |Kids(children, top.id)|
      && Kids(children, top.id)[top.next] in colors && colors[Kids(children, top.id)[top.next]] == White
    ensures var child := Kids(children, stack[|stack| - 1].id)[stack[|stack| - 1].next];
      SearchOk(children, colors[child := Gray], Advance(stack) + [Frame(child, 0)], order, clean)
  {
    AdvanceStack(children, colors, stack);
    var n := |stack| - 1;
    var child := Kids(children, stack[n].id)[stack[n].next];
    var next, colors' := Advance(stack), colors[child := Gray];
    var pushed := next + [Frame(child, 0)];
    assert colors'.Keys == colors.Keys;
    forall i | 0 <= i < |pushed| ensures FrameOk(children, colors', pushed, i) && (i < |next| ==> pushed[i].id != child) {
      if i < |next| { assert FrameOk(children, colors, next, i); }
    }
    forall i | 0 <= i < |pushed| - 1 ensures SteppedTo(children, pushed, i) {
      if i < |next| - 1 { assert SteppedTo(children, next, i); }
    }
    forall id | id in colors' && colors'[id] == Gray ensures OnStack(pushed, id) {
      if id == child {
        assert pushed[|next|].id == id;
      } else {
        assert OnStack(next, id);
        var i :| 0 <= i < |next| && next[i].id == id;
        assert pushed[i].id == id;
      }
    }
    if clean {
      assert Topological(children, colors'.Keys, order);
      forall i | 0 <= i < |pushed| ensures ScannedAt(children, colors'.Keys, pushed, order, i) {
        if i < |next| { assert ScannedAt(children, colors.Keys, stack, order, i); }
      }
    }
  }

  // ---- A topological order of all nodes leaves no room for a cycle ----

  lemma {:induction false} WalkDescends(children: Children, nodes: set<u64>, order: seq<u64>, w: seq<u64>, k: nat)
    requires Topological(children, nodes, order)
    requires IsWalk(children, nodes, w) && |w| >= 2 && k < |order| && order[k] == w[0]
    ensures w[|w| - 1] in order[..k]
  {
    assert ChildrenFirst(children, nodes, order, k) && Edge(children, nodes, w[0], w[1]);
    if |w| > 2 {
      var j :| 0 <= j < k && order[..k][j] == w[1];
      forall i | 0 <= i < |w[1..]| - 1 ensures Edge(children, nodes, w[1..][i], w[1..][i + 1]) {
        assert Edge(children, nodes, w[i + 1], w[i + 1 + 1]);
      }
      WalkDescends(children, nodes, order, w[1..], j);
    }
  }

  lemma TopologicalNoCycle(children: Children, nodes: set<u64>, order: seq<u64>)
    requires Topological(children, nodes, order)
    requires forall i, j :: 0 <= i < j < |order| ==> order[i] != order[j]
    requires forall id :: id in nodes ==> id in order
    ensures !HasCycle(children, nodes)
  {
    forall w ensures !IsCycle(children, nodes, w) {
      if IsCycle(children, nodes, w) {
        assert Edge(children, nodes, w[0], w[1]);
        var k :| 0 <= k < |order| && order[k] == w[0];
        WalkDescends(children, nodes, order, w, k);
      }
    }
  }

  /** Before anything is coloured. */
  lemma NothingSearched(children: Children, colors: map<u64, Color>)
    requires forall id :: id in colors ==> colors[id] == White
    ensures SearchOk(children, colors, [], [], true)
  {}

  /** When every node is finished, a cycle was seen exactly if there is one. */
  lemma AllSearched(children: Children, colors: map<u64, Color>, order: seq<u64>, clean: bool)
    requires SearchOk(children, colors, [], order, clean)
    requires forall id :: id in colors ==> colors[id] != White
    ensures clean <==> !HasCycle(children, colors.Keys)
  {
    forall id | id in colors ensures id in order {
      assert colors[id] == Gray ==> OnStack([], id);
    }
    if clean { TopologicalNoCycle(children, colors.Keys, order); }
  }

  // ---- The measure of the search: white nodes, then children still to look at ----

  function Whites(colors: map<u64, Color>): set<u64> {
    set id | id in colors && colors[id] == White
  }

  function Pending(children: Children, stack: seq<Frame>): nat {
    if stack == [] then 0
    else
      var top := stack[|stack| - 1];
      var kids := |Kids(children, top.id)|;
      Pending(children, stack[..|stack| - 1]) + 1 + (if top.next <= kids then kids - top.next else 0)
  }

  lemma AdvancePends(children: Children, stack: seq<Frame>)
    requires stack != [] && stack[|stack| - 1].next < |Kids(children, stack[|stack| - 1].id)|
    ensures Pending(children, Advance(stack)) < Pending(children, stack)
  {
    assert Advance(stack)[..|stack| - 1] == stack[..|stack| - 1];
  }

  lemma PopPends(children: Children, colors: map<u64, Color>, stack: seq<Frame>)
    requires stack != [] && stack[|stack| - 1].id in colors && colors[stack[|stack| - 1].id] == Gray
    ensures Whites(colors[stack[|stack| - 1].id := Black]) == Whites(colors)
    ensures Pending(children, stack[..|stack| - 1]) < Pending(children, stack)
  {}

  lemma GrayingShrinks(colors: map<u64, Color>, id: u64)
    requires id in colors && colors[id] == White
    ensures Whites(colors[id := Gray]) < Whites(colors)
  {
    assert id in Whites(colors) && id !in Whites(colors[id := Gray]);
  }

  // ---- Reachability ----

  predicate IsPath(children: Children, w: seq<u64>) {
    w != [] && forall i :: 0 <= i < |w| - 1 ==> w[i + 1] in Kids(children, w[i])
  }

  ghost predicate PathBetween(children: Children, u: u64, v: u64, w: seq<u64>) {
    IsPath(children, w) && w[0] == u && w[|w| - 1] == v
  }

  ghost predicate Reaches(children: Children, u: u64, v: u64) {
    exists w :: PathBetween(children, u, v, w)
  }

  lemma ReachesSelf(children: Children, u: u64)
    ensures Reaches(children, u, u)
  {
    assert PathBetween(children, u, u, [u]);
  }

  lemma ReachesStep(children: Children, u: u64, v: u64, c: u64)
    requires Reaches(children, u, v) && c in Kids(children, v)
    ensures Reaches(children, u, c)
  {
    var w :| PathBetween(children, u, v, w);
    assert PathBetween(children, u, c, w + [c]);
  }

  /** A set closed under children that holds the start holds everything reachable. */
  lemma {:induction false} ClosedHoldsPath(children: Children, s: set<u64>, w: seq<u64>)
    requires IsPath(children, w) && w[0] in s
    requires forall u, c :: u in s && c in Kids(children, u) ==> c in s
    ensures w[|w| - 1] in s
  {
    if |w| > 1 {
      ClosedHoldsPath(children, s, w[..|w| - 1]);
      assert w[|w| - 2 + 1] in Kids(children, w[|w| - 2]);
    }
  }

  lemma ClosedHoldsReachable(children: Children, s: set<u64>, root: u64)
    requires root in s
    requires forall u, c :: u in s && c in Kids(children, u) ==> c in s
    ensures forall v :: Reaches(children, root, v) ==> v in s
  {
    forall v | Reaches(children, root, v) ensures v in s {
      var w :| PathBetween(children, root, v, w);
      ClosedHoldsPath(children, s, w);
    }
  }

  ghost function Universe(children: Children, root: u64): set<u64> {
    {root} + set id, c | id in children && c in children[id] :: c
  }

  /** The nodes taken from the stack have all their children in the set. */
  ghost predicate SweptAt(children: Children, reachable: set<u64>, stack: seq<u64>, u: u64) {
    u in reachable && u !in stack ==> forall c :: c in Kids(children, u) ==> c in reachable
  }

  /** The sweep from the root: exactly the ids some path leads to. */
  method FindReachable(children: Children, root: u64) returns (reachable: set<u64>)
    ensures forall v :: v in reachable <==> Reaches(children, root, v)
  {
    var stack := [root];
    reachable := {root};
    ReachesSelf(children, root);
    while stack != []
      invariant root in reachable && reachable <= Universe(children, root)
      invariant forall v :: v in stack ==> v in reachable
      invariant forall v :: v in reachable ==> Reaches(children, root, v)
      invariant forall u :: SweptAt(children, reachable, stack, u)
      decreases Universe(children, root) - reachable, |stack|
    {
      var current := stack[|stack| - 1];
      ghost var before := stack;
      stack := stack[..|stack| - 1];
      assert forall v :: v in before <==> v in stack || v == current;
      forall u | u != current ensures SweptAt(children, reachable, stack, u) {
        assert SweptAt(children, reachable, before, u);
      }
      reachable, stack := SweepChildren(children, root, current, reachable, stack);
    }
    forall u, c | u in reachable && c in Kids(children, u) ensures c in reachable {
      assert SweptAt(children, reachable, stack, u);
    }
    ClosedHoldsReachable(children, reachable, root);
  }

  /** Every child that is new to the set is put in the set and on the stack. */
  method SweepChildren(children: Children, ghost root: u64, current: u64, reached: set<u64>, todo: seq<u64>)
    returns (reachable: set<u64>, stack: seq<u64>)
    requires root in reached && reached <= Universe(children, root) && current in reached
    requires forall v :: v in todo ==> v in reached
    requires forall v :: v in reached ==> Reaches(children, root, v)
    requires forall u :: u != current ==> SweptAt(children, reached, todo, u)
    ensures root in reachable && reached <= reachable <= Universe(children, root)
    ensures forall v :: v in stack ==> v in reachable
    ensures forall v :: v in reachable ==> Reaches(children, root, v)
    ensures forall u :: SweptAt(children, reachable, stack, u)
    ensures reached < reachable || stack == todo
  {
    reachable, stack := reached, todo;
    var kids := Kids(children, current);
    for i := 0 to |kids|
      invariant reached <= reachable <= Universe(children, root)
      invariant forall v :: v in stack ==> v in reachable
      invariant forall v :: v in reachable ==> Reaches(children, root, v)
      invariant forall u :: u != current ==> SweptAt(children, reachable, stack, u)
      invariant forall j :: 0 <= j < i ==> kids[j] in reachable
      invariant reached < reachable || stack == todo
    {
      if kids[i] !in reachable {
        ReachesStep(children, root, current, kids[i]);
        SweepKeeps(children, reachable, stack, current, kids[i]);
        reachable := reachable + {kids[i]};
        stack := stack + [kids[i]];
      }
    }
    assert SweptAt(children, reachable, stack, current);
  }

  lemma SweepKeeps(children: Children, reachable: set<u64>, stack: seq<u64>, current: u64, child: u64)
    requires forall u :: u != current ==> SweptAt(children, reachable, stack, u)
    ensures forall u :: u != current ==> SweptAt(children, reachable + {child}, stack + [child], u)
  {
    forall u | u != current ensures SweptAt(children, reachable + {child}, stack + [child], u) {
      assert SweptAt(children, reachable, stack, u);
      assert (stack + [child])[|stack|] == child;
      assert u in stack ==> u in stack + [child];
    }
  }
}
