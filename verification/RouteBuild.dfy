/** The trie while patterns are being added: one node per token, every node reached by exactly one path. */
module RouteBuild {
  import opened Bytes
  import opened RoutePattern
  import opened RouteTrie

  /** The child of a node for one token. */
  function Child(n: Node, t: Token): Option<nat> {
    match t
    case Tag(p) => if p in n.params then Some(n.params[p]) else None
    case Lit(c) => if [c] in n.children then Some(n.children[[c]]) else None
  }

  function WithChild(n: Node, t: Token, child: nat): Node {
    match t
    case Tag(p) => n.(params := n.params[p := child])
    case Lit(c) => n.(children := n.children[[c] := child])
  }

  /** Every node but the root has a parent. */
  ghost predicate HasParent(nodes: seq<Node>, j: nat) {
    exists i, t :: 0 <= i < j && i < |nodes| && Child(nodes[i], t) == Some(j)
  }

  /** An uncompressed trie: keys are single bytes, and the labels are the distinct paths of its nodes. */
  ghost predicate Plain(nodes: seq<Node>, labels: seq<seq<Token>>) {
    && Arena(nodes) && |labels| == |nodes| && labels[0] == []
    && (forall i, k :: 0 <= i < |nodes| && k in nodes[i].children ==> |k| == 1)
    && (forall i, t :: 0 <= i < |nodes| && Child(nodes[i], t).Some? ==>
          Child(nodes[i], t).value < |nodes| && labels[Child(nodes[i], t).value] == labels[i] + [t])
    && (forall i, j :: 0 <= i < j < |nodes| ==> labels[i] != labels[j])
    && (forall j :: 0 < j < |nodes| ==> HasParent(nodes, j))
  }

  /** Same rules under the same paths. */
  ghost predicate SameRoutes(a: seq<Node>, la: seq<seq<Token>>, b: seq<Node>, lb: seq<seq<Token>>) {
    && |a| <= |b| && |la| == |a| && |lb| == |b| && la <= lb
    && (forall i :: 0 <= i < |a| ==> a[i].ruleIndex == b[i].ruleIndex)
    && (forall i :: |a| <= i < |b| ==> b[i].ruleIndex == 0)
  }

  lemma {:induction false} SameRoutesTrans(
    a: seq<Node>, la: seq<seq<Token>>, b: seq<Node>, lb: seq<seq<Token>>, c: seq<Node>, lc: seq<seq<Token>>)
    requires SameRoutes(a, la, b, lb) && SameRoutes(b, lb, c, lc)
    ensures SameRoutes(a, la, c, lc)
  {
  }

  /** A route that does not end at a node begins with the token of one of its children. */
  lemma {:induction false} FirstToken(nodes: seq<Node>, i: nat, ts: seq<Token>, r: nat) returns (c: nat, t: Token)
    requires Arena(nodes) && i < |nodes| && Stores(nodes, i, ts, r) && !(ts == [] && r == nodes[i].ruleIndex)
    requires forall k :: k in nodes[i].children ==> |k| == 1
    ensures i < c < |nodes| && Child(nodes[i], t) == Some(c) && ts != [] && ts == [t] + ts[1..] && Stores(nodes, c, ts[1..], r)
  {
    assert NodeOk(nodes[i], i, |nodes|);
    StoresByWhich(nodes, i, ts, r);
    if StoresByParam(nodes, i, ts, r) {
      c, t := nodes[i].params[ts[0].param], ts[0];
    } else {
      var k :| StoresByKey(nodes, i, k, ts, r);
      assert k == [k[0]] && ts[0] == Literals(k)[0];
      c, t := nodes[i].children[k], Lit(k[0]);
    }
  }

  lemma {:induction false} EveryRuleIsPositive(nodes: seq<Node>, i: nat, ts: seq<Token>, r: nat)
    requires Arena(nodes) && i < |nodes| && Stores(nodes, i, ts, r)
    ensures r > 0
    decreases |nodes| - i
  {
    assert NodeOk(nodes[i], i, |nodes|);
    StoresByWhich(nodes, i, ts, r);
    if StoresByParam(nodes, i, ts, r) {
      EveryRuleIsPositive(nodes, nodes[i].params[ts[0].param], ts[1..], r);
    } else if k :| StoresByKey(nodes, i, k, ts, r) {
      EveryRuleIsPositive(nodes, nodes[i].children[k], ts[|k|..], r);
    }
  }

  lemma {:induction false} ChildLabel(nodes: seq<Node>, labels: seq<seq<Token>>, i: nat, t: Token, c: nat)
    requires Plain(nodes, labels) && i < |nodes| && Child(nodes[i], t) == Some(c)
    ensures c < |nodes| && labels[c] == labels[i] + [t]
  {
  }

  /** A route stored below a node is the rule of the node at the end of its path. */
  lemma {:induction false} StoredRuleIsLabelled(nodes: seq<Node>, labels: seq<seq<Token>>, i: nat, ts: seq<Token>, r: nat)
    returns (j: nat)
    requires Plain(nodes, labels) && i < |nodes| && Stores(nodes, i, ts, r)
    ensures j < |nodes| && labels[j] == labels[i] + ts && nodes[j].ruleIndex == r > 0
    decreases |nodes| - i
  {
    if ts == [] && r == nodes[i].ruleIndex {
      assert labels[i] + [] == labels[i];
      EveryRuleIsPositive(nodes, i, ts, r);
      j := i;
    } else {
      var c, t := FirstToken(nodes, i, ts, r);
      ChildLabel(nodes, labels, i, t, c);
      j := StoredRuleIsLabelled(nodes, labels, c, ts[1..], r);
      Concat3(labels[i], [t], ts[1..]);
    }
  }

  /** What is stored below a child is stored below its parent, one token longer. */
  lemma {:induction false} StoredBelowParent(nodes: seq<Node>, i: nat, t: Token, j: nat, ts: seq<Token>, r: nat)
    requires Arena(nodes) && i < |nodes| && j < |nodes| && Child(nodes[i], t) == Some(j) && Stores(nodes, j, ts, r)
    ensures Stores(nodes, i, [t] + ts, r)
  {
    var us := [t] + ts;
    assert us[1..] == ts;
    StoresByWhich(nodes, i, us, r);
    if t.Lit? {
      assert Literals([t.c]) == [t] && Literals([t.c]) <= us;
      assert StoresByKey(nodes, i, [t.c], us, r);
    } else {
      assert StoresByParam(nodes, i, us, r);
    }
  }

  lemma {:induction false} ParentOf(nodes: seq<Node>, labels: seq<seq<Token>>, j: nat) returns (i: nat, t: Token)
    requires Plain(nodes, labels) && 0 < j < |nodes|
    ensures i < j && Child(nodes[i], t) == Some(j) && labels[j] == labels[i] + [t]
  {
    assert HasParent(nodes, j);
    i, t :| 0 <= i < j && i < |nodes| && Child(nodes[i], t) == Some(j);
  }

  /** What is stored below a node is stored below the root, under the node's path. */
  lemma {:induction false} StoredBelowRoot(nodes: seq<Node>, labels: seq<seq<Token>>, j: nat, ts: seq<Token>, r: nat)
    requires Plain(nodes, labels) && j < |nodes| && Stores(nodes, j, ts, r)
    ensures Stores(nodes, 0, labels[j] + ts, r)
    decreases j
  {
    if j == 0 {
      assert labels[0] + ts == ts;
    } else {
      var i, t := ParentOf(nodes, labels, j);
      StoredBelowParent(nodes, i, t, j, ts, r);
      StoredBelowRoot(nodes, labels, i, [t] + ts, r);
      assert labels[i] + ([t] + ts) == labels[j] + ts;
    }
  }

  /** The routes of an uncompressed trie are the rules of its nodes under their labels. */
  lemma {:induction false} StoresByLabel(nodes: seq<Node>, labels: seq<seq<Token>>)
    requires Plain(nodes, labels)
    ensures forall ts, r :: Stores(nodes, 0, ts, r) <==>
              exists j :: 0 <= j < |nodes| && labels[j] == ts && nodes[j].ruleIndex == r && r > 0
  {
    forall ts, r ensures Stores(nodes, 0, ts, r) <==>
              exists j :: 0 <= j < |nodes| && labels[j] == ts && nodes[j].ruleIndex == r && r > 0
    {
      if Stores(nodes, 0, ts, r) {
        var j := StoredRuleIsLabelled(nodes, labels, 0, ts, r);
        assert labels[0] + ts == ts;
      }
      if j :| 0 <= j < |nodes| && labels[j] == ts && nodes[j].ruleIndex == r && r > 0 {
        StoredBelowRoot(nodes, labels, j, [], r);
        assert labels[j] + [] == ts;
      }
    }
  }

  lemma {:induction false} ChildOfWithChild(n: Node, t: Token, child: nat, u: Token)
    ensures Child(WithChild(n, t, child), u) == if u == t then Some(child) else Child(n, u)
  {
  }

  /** A missing child added at the end of the arena. */
  lemma {:induction false} GrowPlain(a: seq<Node>, labels: seq<seq<Token>>, idx: nat, t: Token, b: seq<Node>)
    requires Plain(a, labels) && idx < |a| && Child(a[idx], t).None?
    requires b == (a + [NO_RULE])[idx := WithChild(a[idx], t, |a|)]
    ensures Plain(b, labels + [labels[idx] + [t]])
    ensures SameRoutes(a, labels, b, labels + [labels[idx] + [t]])
  {
    var grown := labels + [labels[idx] + [t]];
    forall i, u | 0 <= i < |b| ensures Child(b[i], u) == if i == idx && u == t then Some(|a|) else if i < |a| then Child(a[i], u) else None {
      if i == idx {
        ChildOfWithChild(a[idx], t, |a|, u);
      }
    }
    forall j | 0 <= j < |a| ensures labels[j] != labels[idx] + [t] {
      if labels[j] == labels[idx] + [t] {
        NewLabel(a, labels, idx, t, j);
      }
    }
    GrowParents(a, labels, idx, t, b);
    GrowArena(a, labels, idx, t, b);
  }

  lemma {:induction false} GrowParents(a: seq<Node>, labels: seq<seq<Token>>, idx: nat, t: Token, b: seq<Node>)
    requires Plain(a, labels) && idx < |a| && Child(a[idx], t).None?
    requires b == (a + [NO_RULE])[idx := WithChild(a[idx], t, |a|)]
    ensures forall j :: 0 < j < |b| ==> HasParent(b, j)
  {
    forall j | 0 < j < |b| ensures HasParent(b, j) {
      if j < |a| {
        var i, u := ParentOf(a, labels, j);
        ChildOfWithChild(a[idx], t, |a|, u);
        assert Child(b[i], u) == Some(j);
      } else {
        assert Child(b[idx], t) == Some(j);
      }
    }
  }

  lemma {:induction false} LastTokenSplits(us: seq<Token>, u: Token, vs: seq<Token>, v: Token)
    requires us + [u] == vs + [v]
    ensures us == vs && u == v
  {
    assert us == (us + [u])[..|us|] && vs == (vs + [v])[..|vs|];
    assert u == (us + [u])[|us|] && v == (vs + [v])[|vs|];
  }

  lemma {:induction false} NewLabel(a: seq<Node>, labels: seq<seq<Token>>, idx: nat, t: Token, j: nat)
    requires Plain(a, labels) && idx < |a| && Child(a[idx], t).None? && j < |a|
    ensures labels[j] != labels[idx] + [t]
  {
    if labels[j] == labels[idx] + [t] {
      var i, u := ParentOf(a, labels, j);
      LastTokenSplits(labels[i], u, labels[idx], t);
    }
  }

  lemma {:induction false} GrowArena(a: seq<Node>, labels: seq<seq<Token>>, idx: nat, t: Token, b: seq<Node>)
    requires Plain(a, labels) && idx < |a| && Child(a[idx], t).None?
    requires b == (a + [NO_RULE])[idx := WithChild(a[idx], t, |a|)]
    ensures Arena(b)
    ensures forall i, k :: 0 <= i < |b| && k in b[i].children ==> |k| == 1
  {
    forall i | 0 <= i < |b| ensures NodeOk(b[i], i, |b|) {
      if i < |a| {
        assert NodeOk(a[i], i, |a|);
      }
      forall k, l | k in b[i].children && l in b[i].children && k <= l ensures k == l {
        assert |k| == 1 && |l| == 1;
      }
    }
  }

  lemma {:induction false} SetRulePlain(a: seq<Node>, labels: seq<seq<Token>>, idx: nat, r: nat)
    requires Plain(a, labels) && idx < |a|
    ensures Plain(a[idx := a[idx].(ruleIndex := r)], labels)
  {
    var b := a[idx := a[idx].(ruleIndex := r)];
    assert forall i :: 0 <= i < |a| ==> NodeOk(a[i], i, |a|);
    forall i | 0 <= i < |b| ensures NodeOk(b[i], i, |b|) {
      assert NodeOk(a[i], i, |a|);
    }
    forall i, t | 0 <= i < |b| ensures Child(b[i], t) == Child(a[i], t) {
    }
    forall j | 0 < j < |b| ensures HasParent(b, j) {
      assert HasParent(a, j);
      var i, t :| 0 <= i < j && i < |a| && Child(a[i], t) == Some(j);
      assert Child(b[i], t) == Some(j);
    }
  }

  /** A path has a route exactly when the node at its end carries a rule. */
  lemma {:induction false} TakenExactly(a: seq<Node>, la: seq<seq<Token>>, b: seq<Node>, lb: seq<seq<Token>>, idx: nat, ts: seq<Token>)
    requires Plain(a, la) && Plain(b, lb) && SameRoutes(a, la, b, lb) && idx < |b| && ts == lb[idx]
    ensures (exists r :: Stores(a, 0, ts, r)) <==> b[idx].ruleIndex != 0
  {
    SameRoutesStore(a, la, b, lb);
    RuleAtLabel(b, lb, idx);
    if r :| Stores(a, 0, ts, r) {
      assert Stores(b, 0, ts, r);
    }
    if b[idx].ruleIndex != 0 {
      var r :| Stores(b, 0, ts, r);
      assert Stores(a, 0, ts, r);
    }
  }

  /** Giving a rule to the node at the end of a path that has none stores that one route more. */
  lemma {:induction false} SetRuleStores(a: seq<Node>, labels: seq<seq<Token>>, idx: nat, r: nat)
    requires Plain(a, labels) && idx < |a| && a[idx].ruleIndex == 0 && r > 0
    ensures var b := a[idx := a[idx].(ruleIndex := r)];
            && Plain(b, labels)
            && forall ts, q :: Stores(b, 0, ts, q) <==> Stores(a, 0, ts, q) || (ts == labels[idx] && q == r)
  {
    var b := a[idx := a[idx].(ruleIndex := r)];
    SetRulePlain(a, labels, idx, r);
    StoresByLabel(a, labels);
    StoresByLabel(b, labels);
    assert b[idx].ruleIndex == r && labels[idx] == labels[idx];
  }

  lemma {:induction false} RuleAtLabel(nodes: seq<Node>, labels: seq<seq<Token>>, idx: nat)
    requires Plain(nodes, labels) && idx < |nodes|
    ensures (exists r :: Stores(nodes, 0, labels[idx], r)) <==> nodes[idx].ruleIndex != 0
  {
    StoresByLabel(nodes, labels);
    if nodes[idx].ruleIndex != 0 {
      assert Stores(nodes, 0, labels[idx], nodes[idx].ruleIndex);
    }
  }

  /** New nodes carry no rule, so growing the arena changes no route. */
  lemma {:induction false} SameRoutesStore(a: seq<Node>, la: seq<seq<Token>>, b: seq<Node>, lb: seq<seq<Token>>)
    requires Plain(a, la) && Plain(b, lb) && SameRoutes(a, la, b, lb)
    ensures forall ts, r :: Stores(a, 0, ts, r) <==> Stores(b, 0, ts, r)
  {
    StoresByLabel(a, la);
    StoresByLabel(b, lb);
    forall ts, r ensures Stores(a, 0, ts, r) <==> Stores(b, 0, ts, r) {
      if j :| 0 <= j < |b| && lb[j] == ts && b[j].ruleIndex == r && r > 0 {
        assert 0 <= j < |a| && la[j] == ts && a[j].ruleIndex == r;
      }
      if j :| 0 <= j < |a| && la[j] == ts && a[j].ruleIndex == r && r > 0 {
        assert lb[j] == ts && b[j].ruleIndex == r;
      }
    }
  }
}
