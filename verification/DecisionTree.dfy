/**
 GBDT/SID3.cpp and SID3.hpp: growing a decision tree over one-hot attributes, and its shape.
 The opened Gini values are an oracle; masks and counts are the opened values of the shares,
 whose products are exact for whole numbers.
 */
module DecisionTree {
  import opened Sums

  /** A node: its transaction mask, the attributes left, and the fields that the JSON keeps. */
  datatype Tree<L> = Node(mask: seq<bool>, attrs: set<int>, size: nat, gini: real, y: L, att: int,
                          children: seq<Tree<L>>)

  predicate IsTerminal<L>(t: Tree<L>) {
    t.children == []
  }

  /**
   S[attribute][value][row] and targets[class][row]; best is getMaxGini, the largest Gini value
   over the attribute values together with its attribute, or -1 when there is none.
   */
  datatype Problem = Problem(S: seq<seq<seq<bool>>>, targets: seq<seq<bool>>, best: (seq<bool>, set<int>) -> (real, int))

  const EPS := 0.000001

  function And(x: seq<bool>, y: seq<bool>): seq<bool>
    requires |x| == |y|
  {
    seq(|x|, i requires 0 <= i < |x| => x[i] && y[i])
  }

  /** Row i has exactly one value of the attribute. */
  ghost predicate OneHotAt(values: seq<seq<bool>>, i: nat) {
    (forall j :: 0 <= j < |values| ==> i < |values[j]|)
    && exists j :: 0 <= j < |values| && values[j][i] && forall k :: 0 <= k < |values| && values[k][i] ==> k == j
  }

  /** All attributes are one-hot over n rows, there is a class, and the oracle names attributes that are left. */
  ghost predicate Valid(p: Problem, n: nat) {
    && (forall r :: 0 <= r < |p.S| ==> forall j :: 0 <= j < |p.S[r]| ==> |p.S[r][j]| == n)
    && (forall r, i :: 0 <= r < |p.S| && 0 <= i < n ==> OneHotAt(p.S[r], i))
    && |p.targets| > 0 && (forall c :: 0 <= c < |p.targets| ==> |p.targets[c]| == n)
    && forall mask, attrs :: p.best(mask, attrs).0 > EPS ==> p.best(mask, attrs).1 in attrs
  }

  predicate AreAttributes(p: Problem, attrs: set<int>) {
    forall r :: r in attrs ==> 0 <= r < |p.S|
  }

  // ---------- the majority class ----------

  /** c is the class with the most rows, the last one among equals. */
  predicate IsMajority(counts: seq<nat>, c: nat) {
    c < |counts|
    && forall k :: 0 <= k < |counts| ==> counts[k] < counts[c] || (counts[k] == counts[c] && k <= c)
  }

  /** max_element over the pairs of count and index. */
  method MajorityClass(counts: seq<nat>) returns (c: nat)
    requires |counts| > 0
    ensures IsMajority(counts, c) && c == Majority(counts)
  {
    c := 0;
    for k := 1 to |counts|
      invariant c < k && forall j :: 0 <= j < k ==> counts[j] < counts[c] || (counts[j] == counts[c] && j <= c)
    {
      if counts[c] <= counts[k] { c := k; }
    }
    assert IsMajority(counts, Majority(counts));
  }

  function Majority(counts: seq<nat>): (c: nat)
    requires |counts| > 0
    ensures IsMajority(counts, c)
  {
    if |counts| == 1 then 0
    else
      var c := Majority(counts[..|counts| - 1]);
      if counts[c] <= counts[|counts| - 1] then |counts| - 1 else c
  }

  function Counts(p: Problem, mask: seq<bool>): seq<nat>
    requires forall c :: 0 <= c < |p.targets| ==> |p.targets[c]| == |mask|
  {
    seq(|p.targets|, c requires 0 <= c < |p.targets| => Count(And(p.targets[c], mask)))
  }

  // ---------- createTree ----------

  /** The stopping rule: no attribute, at most half of all rows, or no gain. */
  predicate Stops(rows: nat, attrs: set<int>, size: nat, gini: real) {
    attrs == {} || rows / 2 >= size || size == 0 || gini <= EPS
  }

  ghost function Grow(p: Problem, mask: seq<bool>, attrs: set<int>): (t: Tree<nat>)
    requires Valid(p, |mask|) && AreAttributes(p, attrs)
    ensures t.mask == mask && t.attrs == attrs && t.size == Count(mask)
    decreases |attrs|, 1, 0
  {
    var size := Count(mask);
    var best := p.best(mask, attrs);
    var y := Majority(Counts(p, mask));
    if Stops(|mask|, attrs, size, best.0) then Node(mask, attrs, size, best.0, y, best.1, [])
    else Node(mask, attrs, size, best.0, y, best.1, GrowChildren(p, mask, attrs, best.1, |p.S[best.1]|))
  }

  ghost function GrowChildren(p: Problem, mask: seq<bool>, attrs: set<int>, att: int, k: nat): (ts: seq<Tree<nat>>)
    requires Valid(p, |mask|) && AreAttributes(p, attrs) && att in attrs && k <= |p.S[att]|
    ensures |ts| == k
    decreases |attrs|, 0, k
  {
    if k == 0 then [] else GrowChildren(p, mask, attrs, att, k - 1) + [Grow(p, And(mask, p.S[att][k - 1]), attrs - {att})]
  }

  lemma {:induction false} ChildAt(p: Problem, mask: seq<bool>, attrs: set<int>, att: int, k: nat, j: nat)
    requires Valid(p, |mask|) && AreAttributes(p, attrs) && att in attrs && j < k <= |p.S[att]|
    ensures GrowChildren(p, mask, attrs, att, k)[j] == Grow(p, And(mask, p.S[att][j]), attrs - {att})
  {
    if j < k - 1 { ChildAt(p, mask, attrs, att, k - 1, j); }
  }

  /** The children of an internal node are the trees grown from its mask and each attribute value. */
  lemma GrownChild(p: Problem, mask: seq<bool>, attrs: set<int>, t: Tree<nat>, j: nat)
    requires Valid(p, |mask|) && AreAttributes(p, attrs) && t == Grow(p, mask, attrs) && j < |t.children|
    ensures t.att in attrs && |t.children| == |p.S[t.att]|
    ensures t.children[j] == Grow(p, And(mask, p.S[t.att][j]), attrs - {t.att})
  {
    ChildAt(p, mask, attrs, t.att, |p.S[t.att]|, j);
  }

  // ---------- what the returned tree is ----------

  function Rows(mask: seq<bool>): set<nat> {
    set i: nat | i < |mask| && mask[i]
  }

  function RowsOfClass(mask: seq<bool>, target: seq<bool>): set<nat> {
    set i: nat | i < |mask| && i < |target| && mask[i] && target[i]
  }

  /** The class with the most rows of the mask, the last one among equals. */
  predicate IsClassOf(p: Problem, mask: seq<bool>, c: nat) {
    c < |p.targets|
    && forall k :: 0 <= k < |p.targets| ==>
         var these, those := |RowsOfClass(mask, p.targets[k])|, |RowsOfClass(mask, p.targets[c])|;
         these < those || (these == those && k <= c)
  }

  /** The rows of the parent's mask that have this value. */
  predicate IsPart(part: seq<bool>, mask: seq<bool>, values: seq<bool>) {
    |part| == |mask| == |values| && forall i :: 0 <= i < |mask| ==> (part[i] <==> mask[i] && values[i])
  }

  /**
   A tree for the problem: a node is split exactly if attributes are left, it holds more than half of
   all rows and at least one, and the oracle's value exceeds EPS.  It is split at the oracle's
   attribute, into one child for each value, with the rows that have it and the other attributes.
   */
  ghost predicate IsTreeOf(p: Problem, t: Tree<nat>) {
    && t.size == |Rows(t.mask)| && (t.gini, t.att) == p.best(t.mask, t.attrs) && IsClassOf(p, t.mask, t.y)
    && (t.children != [] <==> t.attrs != {} && |t.mask| / 2 < |Rows(t.mask)| && Rows(t.mask) != {} && t.gini > EPS)
    && (t.children != [] ==> 0 <= t.att < |p.S| && |t.children| == |p.S[t.att]|)
    && forall j :: 0 <= j < |t.children| ==>
         && IsPart(t.children[j].mask, t.mask, p.S[t.att][j])
         && t.children[j].attrs == t.attrs - {t.att}
         && IsTreeOf(p, t.children[j])
  }

  lemma {:induction false} CountIsRows(mask: seq<bool>)
    ensures Count(mask) == |Rows(mask)|
  {
    if |mask| > 0 {
      var last := |mask| - 1;
      CountIsRows(mask[..last]);
      assert Rows(mask) == Rows(mask[..last]) + if mask[last] then {last} else {};
    }
  }

  lemma MajorityIsClass(p: Problem, mask: seq<bool>)
    requires Valid(p, |mask|)
    ensures IsClassOf(p, mask, Majority(Counts(p, mask)))
    ensures forall c: nat :: IsClassOf(p, mask, c) ==> c == Majority(Counts(p, mask))
  {
    forall k | 0 <= k < |p.targets| ensures Counts(p, mask)[k] == |RowsOfClass(mask, p.targets[k])| {
      CountIsRows(And(p.targets[k], mask));
      assert Rows(And(p.targets[k], mask)) == RowsOfClass(mask, p.targets[k]);
    }
  }

  /** A mask with a row has children, for the row has a value. */
  lemma SomeValue(p: Problem, mask: seq<bool>, att: int)
    requires Valid(p, |mask|) && 0 <= att < |p.S| && Rows(mask) != {}
    ensures |p.S[att]| > 0
  {
    var i :| i in Rows(mask);
    assert OneHotAt(p.S[att], i);
  }

  lemma {:induction false} GrownIsTree(p: Problem, mask: seq<bool>, attrs: set<int>)
    requires Valid(p, |mask|) && AreAttributes(p, attrs)
    ensures IsTreeOf(p, Grow(p, mask, attrs))
    decreases |attrs|
  {
    var t := Grow(p, mask, attrs);
    CountIsRows(mask);
    MajorityIsClass(p, mask);
    if !Stops(|mask|, attrs, t.size, t.gini) { SomeValue(p, mask, t.att); }
    forall j | 0 <= j < |t.children|
      ensures IsPart(t.children[j].mask, mask, p.S[t.att][j])
      ensures t.children[j].attrs == attrs - {t.att} && IsTreeOf(p, t.children[j])
    {
      GrownChild(p, mask, attrs, t, j);
      GrownIsTree(p, And(mask, p.S[t.att][j]), attrs - {t.att});
    }
  }

  /** There is no other tree for this mask and these attributes. */
  lemma {:induction false} TreeIsGrown(p: Problem, t: Tree<nat>)
    requires Valid(p, |t.mask|) && AreAttributes(p, t.attrs) && IsTreeOf(p, t)
    ensures t == Grow(p, t.mask, t.attrs)
    decreases t
  {
    var grown := Grow(p, t.mask, t.attrs);
    GrownIsTree(p, t.mask, t.attrs);
    MajorityIsClass(p, t.mask);
    forall j | 0 <= j < |t.children| ensures t.children[j] == grown.children[j] {
      TreeIsGrown(p, t.children[j]);
      SamePart(p, t, grown, j);
    }
    assert t.children == grown.children;
  }

  lemma SamePart(p: Problem, t: Tree<nat>, grown: Tree<nat>, j: nat)
    requires Valid(p, |t.mask|) && AreAttributes(p, t.attrs) && grown == Grow(p, t.mask, t.attrs)
    requires j < |grown.children| && j < |t.children| && grown.att == t.att
    requires t.children[j].attrs == t.attrs - {t.att}
    requires 0 <= t.att < |p.S| && j < |p.S[t.att]| && IsPart(t.children[j].mask, t.mask, p.S[t.att][j])
    ensures grown.children[j] == Grow(p, t.children[j].mask, t.children[j].attrs)
  {
    GrownChild(p, t.mask, t.attrs, grown, j);
    assert t.children[j].mask == And(t.mask, p.S[t.att][j]);
  }

  method CreateTree(p: Problem, mask: seq<bool>, attrs: set<int>) returns (current: Tree<nat>)
    requires Valid(p, |mask|) && AreAttributes(p, attrs)
    ensures current.mask == mask && current.attrs == attrs && IsTreeOf(p, current)
    ensures current == Grow(p, mask, attrs)
    decreases |attrs|
  {
    var size := Count(mask);
    var y := MajorityClass(Counts(p, mask));
    var best := p.best(mask, attrs);
    current := Node(mask, attrs, size, best.0, y, best.1, []);
    if attrs == {} || |mask| / 2 >= size || size == 0 || best.0 <= EPS {
      GrownIsTree(p, mask, attrs);
      return;
    }
    var rest := attrs - {best.1};
    for j := 0 to |p.S[best.1]|
      invariant current == Node(mask, attrs, size, best.0, y, best.1, GrowChildren(p, mask, attrs, best.1, j))
    {
      var child := CreateTree(p, And(mask, p.S[best.1][j]), rest);
      current := current.(children := current.children + [child]);
    }
    GrownIsTree(p, mask, attrs);
  }

  // ---------- the children partition the rows ----------

  lemma {:induction false} CountOfDisjoint(x: seq<bool>, y: seq<bool>, z: seq<bool>)
    requires |x| == |y| == |z| && forall i :: 0 <= i < |x| ==> (z[i] <==> x[i] || y[i]) && !(x[i] && y[i])
    ensures Count(z) == Count(x) + Count(y)
  {
    if |x| > 0 { CountOfDisjoint(x[..|x| - 1], y[..|y| - 1], z[..|z| - 1]); }
  }

  /** The rows of the mask that have one of the first k values. */
  ghost function Covered(mask: seq<bool>, values: seq<seq<bool>>, k: nat): seq<bool>
    requires k <= |values| && forall j :: 0 <= j < |values| ==> |values[j]| == |mask|
  {
    seq(|mask|, i requires 0 <= i < |mask| => mask[i] && exists j :: 0 <= j < k && values[j][i])
  }

  ghost function SizesUpTo(mask: seq<bool>, values: seq<seq<bool>>, k: nat): nat
    requires k <= |values| && forall j :: 0 <= j < |values| ==> |values[j]| == |mask|
  {
    if k == 0 then 0 else SizesUpTo(mask, values, k - 1) + Count(And(mask, values[k - 1]))
  }

  lemma {:induction false} SizesOfCovered(mask: seq<bool>, values: seq<seq<bool>>, k: nat)
    requires k <= |values| && forall j :: 0 <= j < |values| ==> |values[j]| == |mask|
    requires forall i :: 0 <= i < |mask| ==> OneHotAt(values, i)
    ensures SizesUpTo(mask, values, k) == Count(Covered(mask, values, k))
  {
    if k == 0 {
      CountNone(Covered(mask, values, 0));
    } else {
      SizesOfCovered(mask, values, k - 1);
      var x, y, z := Covered(mask, values, k - 1), And(mask, values[k - 1]), Covered(mask, values, k);
      forall i | 0 <= i < |mask| ensures (z[i] <==> x[i] || y[i]) && !(x[i] && y[i]) {
        assert OneHotAt(values, i);
      }
      CountOfDisjoint(x, y, z);
    }
  }

  /** Every row of a node goes to exactly one child, so the sizes of the children add up. */
  lemma ChildrenPartition(p: Problem, mask: seq<bool>, att: int)
    requires Valid(p, |mask|) && 0 <= att < |p.S|
    ensures SizesUpTo(mask, p.S[att], |p.S[att]|) == Count(mask)
  {
    forall i | 0 <= i < |mask| ensures OneHotAt(p.S[att], i) {
    }
    SizesOfCovered(mask, p.S[att], |p.S[att]|);
    var all := Covered(mask, p.S[att], |p.S[att]|);
    forall i | 0 <= i < |mask| ensures all[i] == mask[i] {
      assert OneHotAt(p.S[att], i);
    }
    assert all == mask;
  }

  ghost function LeafSizes<L>(t: Tree<L>): nat {
    if IsTerminal(t) then t.size else LeafSizesUpTo(t, |t.children|)
  }

  ghost function LeafSizesUpTo<L>(t: Tree<L>, k: nat): nat
    requires k <= |t.children|
    decreases t, 0, k
  {
    if k == 0 then 0 else LeafSizesUpTo(t, k - 1) + LeafSizes(t.children[k - 1])
  }

  lemma {:induction false} LeavesUpTo<L>(t: Tree<L>, mask: seq<bool>, values: seq<seq<bool>>, k: nat)
    requires k <= |t.children| == |values| && forall j :: 0 <= j < |values| ==> |values[j]| == |mask|
    requires forall j :: 0 <= j < |values| ==> LeafSizes(t.children[j]) == Count(And(mask, values[j]))
    ensures LeafSizesUpTo(t, k) == SizesUpTo(mask, values, k)
  {
    if k > 0 { LeavesUpTo(t, mask, values, k - 1); }
  }

  /** The leaves of a grown tree hold every row of the root exactly once. */
  lemma {:induction false} LeavesHoldAllRows(p: Problem, mask: seq<bool>, attrs: set<int>)
    requires Valid(p, |mask|) && AreAttributes(p, attrs)
    ensures LeafSizes(Grow(p, mask, attrs)) == Count(mask)
    decreases |attrs|
  {
    var t := Grow(p, mask, attrs);
    if !IsTerminal(t) {
      GrownChild(p, mask, attrs, t, 0);
      forall j | 0 <= j < |t.children| ensures LeafSizes(t.children[j]) == Count(And(mask, p.S[t.att][j])) {
        GrownChild(p, mask, attrs, t, j);
        LeavesHoldAllRows(p, And(mask, p.S[t.att][j]), attrs - {t.att});
      }
      LeavesUpTo(t, mask, p.S[t.att], |t.children|);
      ChildrenPartition(p, mask, t.att);
    }
  }

  // ---------- the shape of the tree ----------

  /** An internal node holds more than half of all rows. */
  lemma InternalIsLarge(p: Problem, mask: seq<bool>, attrs: set<int>)
    requires Valid(p, |mask|) && AreAttributes(p, attrs) && !IsTerminal(Grow(p, mask, attrs))
    ensures 2 * Count(mask) > |mask|
  {
  }

  /** Two disjoint masks cannot both hold more than half of all rows. */
  lemma DisjointHalves(x: seq<bool>, y: seq<bool>)
    requires |x| == |y| && forall i :: 0 <= i < |x| ==> !(x[i] && y[i])
    ensures Count(x) + Count(y) <= |x|
  {
    var z := seq(|x|, i requires 0 <= i < |x| => x[i] || y[i]);
    CountOfDisjoint(x, y, z);
    CountAtMost(z);
  }

  /** A split needs more than half of all rows, so two children cannot both be split. */
  lemma AtMostOneInternalChild(p: Problem, mask: seq<bool>, attrs: set<int>, t: Tree<nat>, j: nat, k: nat)
    requires Valid(p, |mask|) && AreAttributes(p, attrs) && t == Grow(p, mask, attrs)
    requires j < |t.children| && k < |t.children| && !IsTerminal(t.children[j]) && !IsTerminal(t.children[k])
    ensures j == k
  {
    GrownChild(p, mask, attrs, t, j);
    GrownChild(p, mask, attrs, t, k);
    var x, y := And(mask, p.S[t.att][j]), And(mask, p.S[t.att][k]);
    InternalIsLarge(p, x, attrs - {t.att});
    InternalIsLarge(p, y, attrs - {t.att});
    if j != k {
      forall i | 0 <= i < |mask| ensures !(x[i] && y[i]) {
        assert OneHotAt(p.S[t.att], i);
      }
      DisjointHalves(x, y);
    }
  }

  ghost function Nodes<L>(t: Tree<L>): nat {
    1 + NodesUpTo(t, |t.children|)
  }

  ghost function NodesUpTo<L>(t: Tree<L>, k: nat): nat
    requires k <= |t.children|
    decreases t, 0, k
  {
    if k == 0 then 0 else NodesUpTo(t, k - 1) + Nodes(t.children[k - 1])
  }

  /** The number of values of the attributes below k that are left. */
  ghost function Widths(p: Problem, attrs: set<int>, k: nat): nat
    requires k <= |p.S|
  {
    if k == 0 then 0 else Widths(p, attrs, k - 1) + if k - 1 in attrs then |p.S[k - 1]| else 0
  }

  lemma {:induction false} WidthsWithout(p: Problem, attrs: set<int>, att: int, k: nat)
    requires k <= |p.S| && att in attrs && 0 <= att < |p.S|
    ensures Widths(p, attrs - {att}, k) == Widths(p, attrs, k) - if att < k then |p.S[att]| else 0
  {
    if k > 0 { WidthsWithout(p, attrs, att, k - 1); }
  }

  /** With at most one child that is not a leaf, its nodes replace the one of a leaf. */
  lemma {:induction false} NodesOfChildren<L>(t: Tree<L>, k: nat, big: nat)
    requires k <= |t.children|
    requires forall j :: 0 <= j < |t.children| && j != big ==> IsTerminal(t.children[j])
    ensures NodesUpTo(t, k) == k + if big < k then Nodes(t.children[big]) - 1 else 0
  {
    if k > 0 {
      NodesOfChildren(t, k - 1, big);
      assert NodesUpTo(t.children[k - 1], 0) == 0;
    }
  }

  lemma OtherChildrenAreLeaves(p: Problem, mask: seq<bool>, attrs: set<int>, t: Tree<nat>, k: nat)
    requires Valid(p, |mask|) && AreAttributes(p, attrs) && t == Grow(p, mask, attrs)
    requires k < |t.children| && !IsTerminal(t.children[k])
    ensures forall j :: 0 <= j < |t.children| && j != k ==> IsTerminal(t.children[j])
  {
    forall j | 0 <= j < |t.children| && j != k ensures IsTerminal(t.children[j]) {
      if !IsTerminal(t.children[j]) { AtMostOneInternalChild(p, mask, attrs, t, j, k); }
    }
  }

  /** The tree is no larger than one node and one per attribute value, whatever the Gini values are. */
  lemma {:induction false} NodeBound(p: Problem, mask: seq<bool>, attrs: set<int>)
    requires Valid(p, |mask|) && AreAttributes(p, attrs)
    ensures Nodes(Grow(p, mask, attrs)) <= 1 + Widths(p, attrs, |p.S|)
    decreases |attrs|
  {
    var t := Grow(p, mask, attrs);
    if !IsTerminal(t) {
      GrownChild(p, mask, attrs, t, 0);
      WidthsWithout(p, attrs, t.att, |p.S|);
      if k :| 0 <= k < |t.children| && !IsTerminal(t.children[k]) {
        OtherChildrenAreLeaves(p, mask, attrs, t, k);
        GrownChild(p, mask, attrs, t, k);
        NodeBound(p, And(mask, p.S[t.att][k]), attrs - {t.att});
        NodesOfChildren(t, |t.children|, k);
      } else {
        NodesOfChildren(t, |t.children|, |t.children|);
      }
    } else {
      assert NodesUpTo(t, 0) == 0;
    }
  }
}
