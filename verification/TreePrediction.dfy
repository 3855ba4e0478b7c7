/**
 GBDT/SID3.cpp, lines 166-213, and SID3.hpp, lines 117-129: the oblivious prediction over shares,
 and the JSON form of a tree.
 */
module TreePrediction {
  import opened Options
  import opened FixedPoint
  import opened FixedShare
  import opened DecisionTree
  import FieldShare

  /** row[a] is the value of attribute a; every split that is reached has a child for it. */
  predicate Fits<L>(t: Tree<L>, row: seq<nat>) {
    IsTerminal(t)
    || (0 <= t.att < |row| && row[t.att] < |t.children|
        && forall j :: 0 <= j < |t.children| ==> Fits(t.children[j], row))
  }

  /** The plain root-to-leaf walk. */
  function Walk<L>(t: Tree<L>, row: seq<nat>): (leaf: Tree<L>)
    requires Fits(t, row)
    ensures IsTerminal(leaf)
  {
    if IsTerminal(t) then t else Walk(t.children[row[t.att]], row)
  }

  /** data[attribute][value] is one exactly at the values of the row. */
  predicate Encodes(conf: Config, data: seq<seq<Share>>, row: seq<nat>) {
    |data| == |row|
    && forall a :: 0 <= a < |row| ==>
         AreShares(conf, data[a])
         && forall j :: 0 <= j < |data[a]| ==> Opened(data[a][j]) == if j == row[a] then S else 0
  }

  /** All leaf values are shares, and every split has data for each of its children. */
  predicate Readable(conf: Config, t: Tree<Share>, data: seq<seq<Share>>) {
    IsShare(conf, t.y)
    && (!IsTerminal(t) ==> 0 <= t.att < |data| && |t.children| <= |data[t.att]|)
    && forall j :: 0 <= j < |t.children| ==> Readable(conf, t.children[j], data)
  }

  function Edges<L>(t: Tree<L>): nat {
    EdgesUpTo(t, |t.children|)
  }

  function EdgesUpTo<L>(t: Tree<L>, k: nat): nat
    requires k <= |t.children|
    decreases t, 0, k
  {
    if k == 0 then 0 else EdgesUpTo(t, k - 1) + 1 + Edges(t.children[k - 1])
  }

  lemma {:induction false} EdgesMonotone<L>(t: Tree<L>, k: nat, m: nat)
    requires k <= m <= |t.children|
    ensures EdgesUpTo(t, k) <= EdgesUpTo(t, m)
  {
    if k < m { EdgesMonotone(t, k, m - 1); }
  }

  predicate AreWholeTriples(conf: Config, ts: seq<Triple>) {
    forall i :: 0 <= i < |ts| ==> IsTriple(conf, ts[i]) && IsWholeTriple(ts[i])
  }

  /** A product with one or zero selects. */
  lemma Selected(v: int, bit: int, y: int)
    requires (bit == 0 || bit == S) && S * v == bit * y
    ensures v == if bit == S then y else 0
  {
  }

  /** attribute_value[index] * child->predict(data) */
  method Select(conf: Config, bit: Share, y: Share, t: Triple) returns (v: Share)
    requires conf.Valid() && IsShare(conf, bit) && IsShare(conf, y) && IsTriple(conf, t) && IsWholeTriple(t)
    requires Opened(bit) == 0 || Opened(bit) == S
    ensures IsShare(conf, v) && Opened(v) == if Opened(bit) == S then Opened(y) else 0
  {
    v := Multiply(conf, bit, y, t);
    Selected(Opened(v), Opened(bit), Opened(y));
  }

  method Zero(conf: Config) returns (z: Share)
    ensures IsShare(conf, z) && Opened(z) == 0
  {
    z := seq(conf.nParties, i => 0);
    FieldShare.SumConstant(conf.nParties, 0, conf.nParties);
  }

  /** predict visits all children, and opens to the class at the end of the walk. */
  method Predict(conf: Config, t: Tree<Share>, data: seq<seq<Share>>, ghost row: seq<nat>, triples: seq<Triple>)
    returns (ret: Share)
    requires conf.Valid() && Fits(t, row) && Encodes(conf, data, row) && Readable(conf, t, data)
    requires AreWholeTriples(conf, triples) && |triples| == Edges(t)
    ensures IsShare(conf, ret) && Opened(ret) == Opened(Walk(t, row).y)
    decreases t
  {
    if IsTerminal(t) {
      return t.y;
    }
    var attributeValue := data[t.att];
    ret := Zero(conf);
    for index := 0 to |t.children|
      invariant IsShare(conf, ret)
      invariant Opened(ret) == if row[t.att] < index then Opened(Walk(t.children[row[t.att]], row).y) else 0
    {
      EdgesMonotone(t, index + 1, |t.children|);
      var from := EdgesUpTo(t, index);
      var child := t.children[index];
      var y := Predict(conf, child, data, row, triples[from + 1..from + 1 + Edges(child)]);
      var term := Select(conf, attributeValue[index], y, triples[from]);
      ret := Add(conf, ret, term);
    }
  }

  // ---------- what training and prediction have to do with each other ----------

  /** The row's own attribute values, as the training data has them. */
  ghost predicate IsTrainingRow(p: Problem, i: nat, row: seq<nat>) {
    |row| == |p.S|
    && forall r :: 0 <= r < |p.S| ==>
         row[r] < |p.S[r]| && forall j :: 0 <= j < |p.S[r]| ==> i < |p.S[r][j]| && (p.S[r][j][i] <==> j == row[r])
  }

  lemma {:induction false} GrownTreeFits(p: Problem, mask: seq<bool>, attrs: set<int>, i: nat, row: seq<nat>)
    requires Valid(p, |mask|) && AreAttributes(p, attrs) && IsTrainingRow(p, i, row)
    ensures Fits(Grow(p, mask, attrs), row)
    decreases |attrs|
  {
    var t := Grow(p, mask, attrs);
    if !IsTerminal(t) {
      GrownChild(p, mask, attrs, t, 0);
      forall j | 0 <= j < |t.children| ensures Fits(t.children[j], row) {
        GrownChild(p, mask, attrs, t, j);
        GrownTreeFits(p, And(mask, p.S[t.att][j]), attrs - {t.att}, i, row);
      }
    }
  }

  /** A training row of the mask is classified by the leaf that holds it, with that leaf's majority. */
  lemma {:induction false} RowReachesItsLeaf(p: Problem, mask: seq<bool>, attrs: set<int>, i: nat, row: seq<nat>)
    requires Valid(p, |mask|) && AreAttributes(p, attrs) && IsTrainingRow(p, i, row) && i < |mask| && mask[i]
    ensures Fits(Grow(p, mask, attrs), row)
    ensures var leaf := Walk(Grow(p, mask, attrs), row);
            |leaf.mask| == |mask| && leaf.mask[i] && IsClassOf(p, leaf.mask, leaf.y)
    decreases |attrs|
  {
    GrownTreeFits(p, mask, attrs, i, row);
    var t := Grow(p, mask, attrs);
    if IsTerminal(t) {
      MajorityIsClass(p, mask);
    } else {
      var j := row[t.att];
      GrownChild(p, mask, attrs, t, j);
      RowReachesItsLeaf(p, And(mask, p.S[t.att][j]), attrs - {t.att}, i, row);
    }
  }

  // ---------- JSON ----------

  /** One party's object: the class is the party's own share of it. */
  datatype Json = Object(gini: real, size: nat, cls: int, att: Option<int>, children: seq<Json>)

  /** The tree with the leaf values as party p holds them. */
  function Local(t: Tree<Share>, p: nat): Tree<int> {
    Node(t.mask, t.attrs, t.size, t.gini, if p < |t.y| then t.y[p] else 0, t.att,
         seq(|t.children|, j requires 0 <= j < |t.children| => Local(t.children[j], p)))
  }

  function CreateTreeJson(t: Tree<int>): Json {
    Object(t.gini, t.size, t.y, if IsTerminal(t) then None else Some(t.att),
           seq(|t.children|, j requires 0 <= j < |t.children| => CreateTreeJson(t.children[j])))
  }

  /** The constructor from JSON; a leaf's attribute is not initialised, and stands as -1 here. */
  function FromJson(json: Json): Tree<int> {
    Node([], {}, json.size, json.gini, json.cls, if json.att.Some? then json.att.value else -1,
         seq(|json.children|, j requires 0 <= j < |json.children| => FromJson(json.children[j])))
  }

  /** The object of party p for a node: its Gini value, size, class share and attribute, and its children. */
  predicate Describes(json: Json, t: Tree<Share>, p: nat) {
    && json.gini == t.gini && json.size == t.size && p < |t.y| && json.cls == t.y[p]
    && json.att == (if IsTerminal(t) then None else Some(t.att))
    && |json.children| == |t.children|
    && forall j :: 0 <= j < |t.children| ==> Describes(json.children[j], t.children[j], p)
  }

  /** Every node has a share for party p. */
  predicate Holds(t: Tree<Share>, p: nat) {
    p < |t.y| && forall j :: 0 <= j < |t.children| ==> Holds(t.children[j], p)
  }

  /** The JSON of a tree describes it, at every party. */
  lemma {:induction false} JsonDescribes(t: Tree<Share>, p: nat)
    requires Holds(t, p)
    ensures Describes(CreateTreeJson(Local(t, p)), t, p)
  {
    forall j | 0 <= j < |t.children| ensures Describes(CreateTreeJson(Local(t.children[j], p)), t.children[j], p) {
      JsonDescribes(t.children[j], p);
    }
  }

  /** A tree with the values of the JSON; a leaf's attribute is not read. */
  predicate IsRead(t: Tree<int>, json: Json) {
    && t.gini == json.gini && t.size == json.size && t.y == json.cls && (json.att.Some? ==> t.att == json.att.value)
    && |t.children| == |json.children|
    && forall j :: 0 <= j < |t.children| ==> IsRead(t.children[j], json.children[j])
  }

  /** The tree from any JSON has its values. */
  lemma {:induction false} FromJsonReads(json: Json)
    ensures IsRead(FromJson(json), json)
  {
    forall j | 0 <= j < |json.children| ensures IsRead(FromJson(json.children[j]), json.children[j]) {
      FromJsonReads(json.children[j]);
    }
  }

  /** Writing a rebuilt tree gives the same JSON. */
  lemma {:induction false} JsonRoundTrip(t: Tree<int>)
    ensures CreateTreeJson(FromJson(CreateTreeJson(t))) == CreateTreeJson(t)
  {
    var json := CreateTreeJson(t);
    var back := FromJson(json);
    forall j | 0 <= j < |t.children| ensures CreateTreeJson(back.children[j]) == json.children[j] {
      JsonRoundTrip(t.children[j]);
    }
    assert CreateTreeJson(back).children == json.children;
  }

  /** On every row the rebuilt tree takes the same walk, to a leaf with the same class. */
  lemma {:induction false} RebuiltTreeWalks(t: Tree<int>, row: seq<nat>)
    requires Fits(t, row)
    ensures var back := FromJson(CreateTreeJson(t));
            Fits(back, row) && Walk(back, row).y == Walk(t, row).y && Walk(back, row).size == Walk(t, row).size
  {
    var back := FromJson(CreateTreeJson(t));
    forall j | 0 <= j < |t.children|
      ensures Fits(back.children[j], row)
      ensures Fits(t, row) && Walk(back.children[j], row).y == Walk(t.children[j], row).y
      ensures Walk(back.children[j], row).size == Walk(t.children[j], row).size
    {
      FitsChild(t, row, j);
      RebuiltTreeWalks(t.children[j], row);
    }
  }

  lemma FitsChild<L>(t: Tree<L>, row: seq<nat>, j: nat)
    requires Fits(t, row) && j < |t.children|
    ensures Fits(t.children[j], row)
  {
  }

  /** Each party's view of the tree takes the walk of the shared tree. */
  lemma {:induction false} LocalWalk(t: Tree<Share>, p: nat, row: seq<nat>)
    requires Fits(t, row)
    ensures Fits(Local(t, p), row) && Walk(Local(t, p), row) == Local(Walk(t, row), p)
  {
    var local := Local(t, p);
    forall j | 0 <= j < |t.children|
      ensures Fits(t.children[j], row) && Fits(local.children[j], row)
      ensures Walk(local.children[j], row) == Local(Walk(t.children[j], row), p)
    {
      FitsChild(t, row, j);
      LocalWalk(t.children[j], p, row);
    }
  }

  /** After a round trip through JSON at every party, the walk still ends at the same shared class. */
  lemma RebuiltEverywhere(t: Tree<Share>, row: seq<nat>, p: nat)
    requires Fits(t, row) && p < |Walk(t, row).y|
    ensures var back := FromJson(CreateTreeJson(Local(t, p)));
            Fits(back, row) && Walk(back, row).y == Walk(t, row).y[p]
  {
    LocalWalk(t, p, row);
    RebuiltTreeWalks(Local(t, p), row);
  }
}
