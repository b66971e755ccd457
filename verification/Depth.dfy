/** How deep the search's stack gets: when the depth warning is given. */
module Depth {
  import opened Domain
  import opened Graph

  ghost predicate WalksTo(children: Children, nodes: set<u64>, start: u64, v: u64, w: seq<u64>) {
    IsWalk(children, nodes, w) && w[0] == start && w[|w| - 1] == v
  }

  ghost predicate Reached(children: Children, nodes: set<u64>, start: u64, v: u64) {
    exists w :: WalksTo(children, nodes, start, v, w)
  }

  /** A walk to the node that meets no node twice has more than `max` nodes. */
  ghost predicate Deep(children: Children, nodes: set<u64>, start: u64, v: u64, max: nat) {
    exists w :: WalksTo(children, nodes, start, v, w) && |w| > max && forall i, j :: 0 <= i < j < |w| ==> w[i] != w[j]
  }

  /** Some walk leads from `start` to the node over at most `max` nodes. */
  ghost predicate Near(children: Children, nodes: set<u64>, start: u64, v: u64, max: nat) {
    exists w :: WalksTo(children, nodes, start, v, w) && |w| <= max
  }

  /** The search from `start` began on `origin`: what is gray or was coloured since was white then. A
      warning means that some node is deep, and without one every node coloured since is near,
      unless the stack is about to give a warning. */
  ghost predicate DepthOk(children: Children, start: u64, origin: map<u64, Color>, colors: map<u64, Color>,
                          stack: seq<Frame>, warned: bool, max: nat) {
    && origin.Keys == colors.Keys
    && (forall k :: k in origin && origin[k] != White ==> colors[k] != White)
    && (stack != [] ==> stack[0].id == start)
    && (forall i :: 0 <= i < |stack| ==> Fresh(origin, stack[i].id))
    && (warned ==> exists v :: Fresh(origin, v) && Deep(children, colors.Keys, start, v, max))
    && AllReached(children, start, origin, colors)
    && (!warned && |stack| <= max ==> AllNear(children, start, origin, colors, max))
  }

  ghost predicate Fresh(origin: map<u64, Color>, k: u64) {
    k in origin && origin[k] == White
  }

  ghost predicate AllReached(children: Children, start: u64, origin: map<u64, Color>, colors: map<u64, Color>) {
    forall k {:trigger Fresh(origin, k)} ::
      k in colors && colors[k] != White && Fresh(origin, k) ==> Reached(children, colors.Keys, start, k)
  }

  ghost predicate AllNear(children: Children, start: u64, origin: map<u64, Color>, colors: map<u64, Color>, max: nat) {
    forall k {:trigger Fresh(origin, k)} ::
      k in colors && colors[k] != White && Fresh(origin, k) ==> Near(children, colors.Keys, start, k, max)
  }

  function StackIds(stack: seq<Frame>): (r: seq<u64>)
    ensures |r| == |stack| && forall i :: 0 <= i < |r| ==> r[i] == stack[i].id
  {
    seq(|stack|, i requires 0 <= i < |stack| => stack[i].id)
  }

  /** The frames of the stack are a walk to its top that meets no node twice. */
  lemma StackIsChain(children: Children, colors: map<u64, Color>, stack: seq<Frame>)
    requires StackOk(children, colors, stack) && stack != []
    ensures WalksTo(children, colors.Keys, stack[0].id, stack[|stack| - 1].id, StackIds(stack))
    ensures forall i, j :: 0 <= i < j < |stack| ==> StackIds(stack)[i] != StackIds(stack)[j]
  {
    var w := StackIds(stack);
    assert FrameOk(children, colors, stack, 0);
    forall i | 0 <= i < |w| - 1 ensures Edge(children, colors.Keys, w[i], w[i + 1]) {
      assert FrameOk(children, colors, stack, i) && FrameOk(children, colors, stack, i + 1) && SteppedTo(children, stack, i);
    }
  }

  // ---- One lemma for each way a turn of the search can go ----

  lemma DepthStarts(children: Children, origin: map<u64, Color>, id: u64, max: nat)
    requires id in origin && origin[id] == White && max >= 1
    ensures DepthOk(children, id, origin, origin[id := Gray], [Frame(id, 0)], false, max)
  {
    var colors := origin[id := Gray];
    assert colors.Keys == origin.Keys;
    assert WalksTo(children, colors.Keys, id, id, [id]);
  }

  lemma DepthWarns(children: Children, start: u64, origin: map<u64, Color>, colors: map<u64, Color>,
                   stack: seq<Frame>, order: seq<u64>, clean: bool, warned: bool, max: nat)
    requires SearchOk(children, colors, stack, order, clean) && DepthOk(children, start, origin, colors, stack, warned, max)
    ensures DepthOk(children, start, origin, colors, stack, warned || |stack| > max, max)
  {
    hide WalksTo, AllReached, AllNear, Fresh;
    if |stack| > max {
      StackIsChain(children, colors, stack);
      assert Fresh(origin, stack[|stack| - 1].id) && Deep(children, colors.Keys, start, stack[|stack| - 1].id, max);
    }
  }

  lemma DepthPops(children: Children, start: u64, origin: map<u64, Color>, colors: map<u64, Color>,
                  stack: seq<Frame>, warned: bool, max: nat)
    requires DepthOk(children, start, origin, colors, stack, warned, max) && stack != [] && (|stack| > max ==> warned)
    requires stack[|stack| - 1].id in colors && colors[stack[|stack| - 1].id] == Gray
    ensures DepthOk(children, start, origin, colors[stack[|stack| - 1].id := Black], stack[..|stack| - 1], warned, max)
  {
    hide Near, Deep, Reached, Fresh;
    var colors' := colors[stack[|stack| - 1].id := Black];
    assert colors'.Keys == colors.Keys;
  }

  lemma DepthAdvances(children: Children, start: u64, origin: map<u64, Color>, colors: map<u64, Color>,
                      stack: seq<Frame>, warned: bool, max: nat)
    requires DepthOk(children, start, origin, colors, stack, warned, max) && stack != []
    ensures DepthOk(children, start, origin, colors, Advance(stack), warned, max)
  {
    hide Near, Deep, AllReached, AllNear;
  }

  lemma DepthPushes(children: Children, start: u64, origin: map<u64, Color>, colors: map<u64, Color>,
                    stack: seq<Frame>, child: u64, order: seq<u64>, clean: bool, warned: bool, max: nat)
    requires DepthOk(children, start, origin, colors, stack, warned, max) && stack != [] && (|stack| > max ==> warned)
    requires child in colors && colors[child] == White
    requires SearchOk(children, colors[child := Gray], Advance(stack) + [Frame(child, 0)], order, clean)
    ensures DepthOk(children, start, origin, colors[child := Gray], Advance(stack) + [Frame(child, 0)], warned, max)
  {
    hide Deep, WalksTo;
    var colors', pushed := colors[child := Gray], Advance(stack) + [Frame(child, 0)];
    assert colors'.Keys == colors.Keys && pushed[0].id == start && pushed[|pushed| - 1].id == child;
    StackIsChain(children, colors', pushed);
    assert Reached(children, colors'.Keys, start, child);
    assert |pushed| <= max ==> Near(children, colors'.Keys, start, child, max);
    hide Reached, Near, SearchOk;
  }

  // ---- Several searches ----

  /** After searches in a graph without a cycle, every node that a walk leads to from a coloured node
      is black. */
  lemma {:induction false} SearchCovers(children: Children, colors: map<u64, Color>, order: seq<u64>, clean: bool,
                                        start: u64, v: u64, w: seq<u64>)
    requires SearchOk(children, colors, [], order, clean) && !HasCycle(children, colors.Keys)
    requires start in colors && colors[start] != White && WalksTo(children, colors.Keys, start, v, w)
    ensures v in order && v in colors && colors[v] == Black
    decreases |w|
  {
    hide HasCycle;
    var n := |w| - 1;
    if n == 0 {
      assert colors[start] == Gray ==> OnStack([], start);
    } else {
      assert Edge(children, colors.Keys, w[n - 1], w[n - 1 + 1]);
      forall i | 0 <= i < n - 1 ensures Edge(children, colors.Keys, w[..n][i], w[..n][i + 1]) {
        assert Edge(children, colors.Keys, w[i], w[i + 1]);
      }
      SearchCovers(children, colors, order, clean, start, w[n - 1], w[..n]);
      var k :| 0 <= k < |order| && order[k] == w[n - 1];
      assert ChildrenFirst(children, colors.Keys, order, k);
    }
  }

  lemma ReachedThrough(children: Children, nodes: set<u64>, a: u64, b: u64, c: u64)
    requires Reached(children, nodes, a, b) && Reached(children, nodes, b, c)
    ensures Reached(children, nodes, a, c)
  {
    var p :| WalksTo(children, nodes, a, b, p);
    var q :| WalksTo(children, nodes, b, c, q);
    var w := p + q[1..];
    forall i | 0 <= i < |w| - 1 ensures Edge(children, nodes, w[i], w[i + 1]) {
      if i < |p| - 1 {
        assert Edge(children, nodes, p[i], p[i + 1]);
      } else {
        var j := i + 1 - |p|;
        assert Edge(children, nodes, q[j], q[j + 1]) && w[i] == q[j] && w[i + 1] == q[j + 1];
      }
    }
    assert WalksTo(children, nodes, a, c, w);
  }

  /** The node is reached from the i-th start, and from none before it. */
  ghost predicate FirstFrom(children: Children, nodes: set<u64>, starts: seq<u64>, i: nat, v: u64)
    requires i < |starts|
  {
    Reached(children, nodes, starts[i], v) && forall j :: 0 <= j < i ==> !Reached(children, nodes, starts[j], v)
  }

  /** What the searches from a list of starts say about depth: a warning means that some node is deep
      below a start, in a graph without a cycle below the first start that reaches it; without a
      warning, in such a graph, every node is near that start. */
  ghost predicate DepthReport(children: Children, nodes: set<u64>, starts: seq<u64>, warned: bool, max: nat) {
    && (warned ==> exists i, v {:trigger DeepBelow(children, nodes, starts, i, v, max)} ::
          0 <= i < |starts| && DeepBelow(children, nodes, starts, i, v, max))
    && (!warned && !HasCycle(children, nodes) ==>
          forall i, v {:trigger FirstFrom(children, nodes, starts, i, v)} ::
            0 <= i < |starts| && FirstFrom(children, nodes, starts, i, v) ==> Near(children, nodes, starts[i], v, max))
  }

  ghost predicate DeepBelow(children: Children, nodes: set<u64>, starts: seq<u64>, i: nat, v: u64, max: nat)
    requires i < |starts|
  {
    Deep(children, nodes, starts[i], v, max) && (HasCycle(children, nodes) || FirstFrom(children, nodes, starts, i, v))
  }

  /** What is coloured was reached from a start. */
  ghost predicate ColouredFrom(children: Children, colors: map<u64, Color>, starts: seq<u64>) {
    forall k {:trigger ReachedFrom(children, colors.Keys, starts, k)} ::
      k in colors && colors[k] != White ==> ReachedFrom(children, colors.Keys, starts, k)
  }

  ghost predicate ReachedFrom(children: Children, nodes: set<u64>, starts: seq<u64>, v: u64) {
    exists j :: 0 <= j < |starts| && Reached(children, nodes, starts[j], v)
  }

  lemma NothingReported(children: Children, colors: map<u64, Color>, max: nat)
    requires forall k :: k in colors ==> colors[k] == White
    ensures DepthReport(children, colors.Keys, [], false, max) && ColouredFrom(children, colors, [])
  {}

  lemma FirstFromMore(children: Children, nodes: set<u64>, starts: seq<u64>, id: u64, i: nat, v: u64)
    requires i < |starts|
    ensures FirstFrom(children, nodes, starts + [id], i, v) <==> FirstFrom(children, nodes, starts, i, v)
  {
    hide Reached;
    assert forall j :: 0 <= j <= i ==> (starts + [id])[j] == starts[j];
  }

  lemma ReachedFromMore(children: Children, nodes: set<u64>, starts: seq<u64>, id: u64, v: u64)
    ensures ReachedFrom(children, nodes, starts + [id], v) <==>
      ReachedFrom(children, nodes, starts, v) || Reached(children, nodes, id, v)
  {
    hide Reached;
    assert (starts + [id])[|starts|] == id && forall j :: 0 <= j < |starts| ==> (starts + [id])[j] == starts[j];
  }

  /** The earlier starts keep their part of the report. */
  lemma ReportMore(children: Children, nodes: set<u64>, starts: seq<u64>, id: u64, before: bool, warned: bool, max: nat)
    requires DepthReport(children, nodes, starts, before, max)
    requires !before && warned ==> exists v :: DeepBelow(children, nodes, starts + [id], |starts|, v, max)
    requires !warned && !HasCycle(children, nodes) ==>
      forall v :: FirstFrom(children, nodes, starts + [id], |starts|, v) ==> Near(children, nodes, id, v, max)
    ensures DepthReport(children, nodes, starts + [id], before || warned, max)
  {
    hide FirstFrom, Near, Deep, HasCycle;
    var all := starts + [id];
    if before {
      var i, v :| 0 <= i < |starts| && DeepBelow(children, nodes, starts, i, v, max);
      FirstFromMore(children, nodes, starts, id, i, v);
      assert DeepBelow(children, nodes, all, i, v, max);
    } else if warned {
      var v :| DeepBelow(children, nodes, all, |starts|, v, max);
    } else if !HasCycle(children, nodes) {
      forall i, v | 0 <= i < |all| && FirstFrom(children, nodes, all, i, v) ensures Near(children, nodes, all[i], v, max) {
        if i < |starts| { FirstFromMore(children, nodes, starts, id, i, v); }
      }
    }
  }

  /** A start that is coloured already is searched from no more: all it reaches was reached before. */
  lemma SkippedReport(children: Children, colors: map<u64, Color>, starts: seq<u64>, id: u64, before: bool, max: nat)
    requires DepthReport(children, colors.Keys, starts, before, max) && ColouredFrom(children, colors, starts)
    requires id in colors && colors[id] != White
    ensures DepthReport(children, colors.Keys, starts + [id], before, max) && ColouredFrom(children, colors, starts + [id])
  {
    hide Reached, Near, Deep, HasCycle, DepthReport;
    var all := starts + [id];
    assert ReachedFrom(children, colors.Keys, starts, id);
    var j :| 0 <= j < |starts| && Reached(children, colors.Keys, starts[j], id);
    forall v ensures !FirstFrom(children, colors.Keys, all, |starts|, v) {
      assert all[|starts|] == id && all[j] == starts[j];
      if Reached(children, colors.Keys, id, v) { ReachedThrough(children, colors.Keys, starts[j], id, v); }
    }
    forall k | k in colors && colors[k] != White ensures ReachedFrom(children, colors.Keys, all, k) {
      ReachedFromMore(children, colors.Keys, starts, id, k);
      assert ReachedFrom(children, colors.Keys, starts, k);
    }
    ReportMore(children, colors.Keys, starts, id, before, false, max);
  }

  /** What was white before a search no earlier start reaches, if there is no cycle. */
  lemma FreshIsFirst(children: Children, origin: map<u64, Color>, order: seq<u64>, clean: bool, starts: seq<u64>, v: u64)
    requires SearchOk(children, origin, [], order, clean) && !HasCycle(children, origin.Keys) && Fresh(origin, v)
    requires forall j :: 0 <= j < |starts| ==> starts[j] in origin && origin[starts[j]] != White
    ensures !ReachedFrom(children, origin.Keys, starts, v)
  {
    hide HasCycle, SearchOk, WalksTo;
    forall j | 0 <= j < |starts| ensures !Reached(children, origin.Keys, starts[j], v) {
      forall w | WalksTo(children, origin.Keys, starts[j], v, w) ensures false {
        SearchCovers(children, origin, order, clean, starts[j], v, w);
      }
    }
  }

  /** A search from a white start settles what it is the first to reach. */
  lemma SearchedReport(children: Children, origin: map<u64, Color>, order0: seq<u64>, clean0: bool,
                       colors: map<u64, Color>, order: seq<u64>, clean: bool,
                       starts: seq<u64>, id: u64, before: bool, warned: bool, max: nat)
    requires DepthReport(children, origin.Keys, starts, before, max) && ColouredFrom(children, origin, starts)
    requires SearchOk(children, origin, [], order0, clean0) && SearchOk(children, colors, [], order, clean)
    requires DepthOk(children, id, origin, colors, [], warned, max) && id in colors && colors[id] != White
    requires forall j :: 0 <= j < |starts| ==> starts[j] in origin && origin[starts[j]] != White
    ensures DepthReport(children, colors.Keys, starts + [id], before || warned, max)
    ensures ColouredFrom(children, colors, starts + [id])
  {
    hide SearchOk, HasCycle, DepthReport, Near, Deep, WalksTo;
    var all, nodes := starts + [id], colors.Keys;
    assert all[|starts|] == id && forall j :: 0 <= j < |starts| ==> all[j] == starts[j];
    if warned {
      var v :| Fresh(origin, v) && Deep(children, nodes, id, v, max);
      DeepIsReached(children, nodes, id, v, max);
      if !HasCycle(children, nodes) { FreshIsFirst(children, origin, order0, clean0, starts, v); }
      assert DeepBelow(children, nodes, all, |starts|, v, max);
    } else if !HasCycle(children, nodes) {
      forall v | FirstFrom(children, nodes, all, |starts|, v) ensures Near(children, nodes, id, v, max) {
        FirstIsNear(children, origin, colors, order, clean, starts, id, v, max);
      }
    }
    forall k | k in colors && colors[k] != White ensures ReachedFrom(children, nodes, all, k) {
      ReachedFromMore(children, nodes, starts, id, k);
      assert Fresh(origin, k) || ReachedFrom(children, origin.Keys, starts, k);
    }
    ReportMore(children, nodes, starts, id, before, warned, max);
  }

  lemma DeepIsReached(children: Children, nodes: set<u64>, start: u64, v: u64, max: nat)
    requires Deep(children, nodes, start, v, max)
    ensures Reached(children, nodes, start, v)
  {}

  lemma FirstIsNear(children: Children, origin: map<u64, Color>, colors: map<u64, Color>, order: seq<u64>, clean: bool,
                    starts: seq<u64>, id: u64, v: u64, max: nat)
    requires ColouredFrom(children, origin, starts) && origin.Keys == colors.Keys && AllNear(children, id, origin, colors, max)
    requires SearchOk(children, colors, [], order, clean) && !HasCycle(children, colors.Keys)
    requires id in colors && colors[id] != White && FirstFrom(children, colors.Keys, starts + [id], |starts|, v)
    ensures Near(children, colors.Keys, id, v, max)
  {
    hide SearchOk, HasCycle, Near;
    var all := starts + [id];
    assert all[|starts|] == id && forall j :: 0 <= j < |starts| ==> all[j] == starts[j];
    var w :| WalksTo(children, colors.Keys, id, v, w);
    SearchCovers(children, colors, order, clean, id, v, w);
    assert !ReachedFrom(children, origin.Keys, starts, v);
    assert Fresh(origin, v);
  }
}
