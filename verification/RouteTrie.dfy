/** The route trie: an arena of nodes, path compression in place, and a backtracking search. */
module RouteTrie {
  import opened Bytes
  import opened RoutePattern

  /** A node: the rule that ends here (0 for none), a child per parameter kind, and children by text. */
  datatype Node = Node(ruleIndex: nat, params: map<Param, nat>, children: map<Text, nat>)
  {
    predicate IsSimple() {
      ruleIndex == 0 && params == map[]
    }
  }

  const NO_RULE := Node(0, map[], map[])

  /** Children are younger than their parents, keys are not empty, and no key is a prefix of another. */
  ghost predicate NodeOk(n: Node, idx: nat, size: nat) {
    && (forall p :: p in n.params ==> idx < n.params[p] < size)
    && (forall k :: k in n.children ==> idx < n.children[k] < size && k != [])
    && PrefixFree(n.children)
  }

  ghost predicate PrefixFree(children: map<Text, nat>) {
    forall k, l :: k in children && l in children && k <= l ==> k == l
  }

  ghost predicate Arena(nodes: seq<Node>) {
    nodes != [] && forall i :: 0 <= i < |nodes| ==> NodeOk(nodes[i], i, |nodes|)
  }

  // ---------------------------------------------------------------- what a trie stores

  /** Rule `r` is stored below node `idx` at the end of the path `ts`. */
  ghost predicate Stores(nodes: seq<Node>, idx: nat, ts: seq<Token>, r: nat)
    requires Arena(nodes) && idx < |nodes|
    decreases |nodes| - idx
  {
    || (ts == [] && r == nodes[idx].ruleIndex && r > 0)
    || (ParamLeads(nodes, idx, ts) && Stores(nodes, nodes[idx].params[ts[0].param], ts[1..], r))
    || exists k :: k in nodes[idx].children && Literals(k) <= ts && Stores(nodes, nodes[idx].children[k], ts[|k|..], r)
  }

  /** The path begins with a parameter for which the node has a child. */
  predicate ParamLeads(nodes: seq<Node>, idx: nat, ts: seq<Token>)
    requires idx < |nodes|
  {
    ts != [] && ts[0].Tag? && ts[0].param in nodes[idx].params
  }

  ghost predicate StoresByParam(nodes: seq<Node>, idx: nat, ts: seq<Token>, r: nat)
    requires Arena(nodes) && idx < |nodes|
  {
    ParamLeads(nodes, idx, ts) && Stores(nodes, nodes[idx].params[ts[0].param], ts[1..], r)
  }

  ghost predicate StoresByKey(nodes: seq<Node>, idx: nat, k: Text, ts: seq<Token>, r: nat)
    requires Arena(nodes) && idx < |nodes|
  {
    k in nodes[idx].children && Literals(k) <= ts && Stores(nodes, nodes[idx].children[k], ts[|k|..], r)
  }

  /** Same paths, same rules, below every node. */
  ghost predicate SameStores(a: seq<Node>, b: seq<Node>)
    requires Arena(a) && Arena(b) && |a| <= |b|
  {
    forall i, ts, r :: 0 <= i < |a| ==> (Stores(a, i, ts, r) <==> Stores(b, i, ts, r))
  }

  /** Two arenas that agree from `idx` on store the same there. */
  lemma {:induction false} StoresAbove(a: seq<Node>, b: seq<Node>, idx: nat, ts: seq<Token>, r: nat)
    requires Arena(a) && Arena(b) && |a| == |b| && idx < |a|
    requires forall i :: idx <= i < |a| ==> a[i] == b[i]
    ensures Stores(a, idx, ts, r) <==> Stores(b, idx, ts, r)
    decreases |a| - idx
  {
    if ParamLeads(a, idx, ts) {
      StoresAbove(a, b, a[idx].params[ts[0].param], ts[1..], r);
    }
    forall k | k in a[idx].children && Literals(k) <= ts
      ensures StoresByKey(a, idx, k, ts, r) <==> StoresByKey(b, idx, k, ts, r)
    {
      StoresAbove(a, b, a[idx].children[k], ts[|k|..], r);
    }
  }

  /** Replacing one node by one that stores the same changes nothing anywhere. */
  lemma {:induction false} ReplaceSame(a: seq<Node>, b: seq<Node>, at: nat, i: nat, ts: seq<Token>, r: nat)
    requires Arena(a) && Arena(b) && |a| == |b| && i < |a| && at < |a|
    requires forall j :: 0 <= j < |a| && j != at ==> a[j] == b[j]
    requires forall us, q :: Stores(a, at, us, q) <==> Stores(b, at, us, q)
    ensures Stores(a, i, ts, r) <==> Stores(b, i, ts, r)
    decreases |a| - i
  {
    if i != at {
      if ParamLeads(a, i, ts) {
        ReplaceSame(a, b, at, a[i].params[ts[0].param], ts[1..], r);
      }
      forall k | k in a[i].children && Literals(k) <= ts
        ensures StoresByKey(a, i, k, ts, r) <==> StoresByKey(b, i, k, ts, r)
      {
        ReplaceSame(a, b, at, a[i].children[k], ts[|k|..], r);
      }
    }
  }

  // ---------------------------------------------------------------- merging a node with its children

  /** Two prefixes of one text compare. */
  lemma {:induction false} PrefixesCompare(k: Text, l: Text, w: Text)
    requires k <= w && l <= w
    ensures k <= l || l <= k
  {
    if |k| <= |l| {
      assert l[..|k|] == w[..|k|];
    } else {
      assert k[..|l|] == w[..|l|];
    }
  }

  /** With prefix-free first parts, a joined key comes apart in one way only. */
  lemma {:induction false} KeySplitsOneWay(children: map<Text, nat>, k: Text, s: Text, l: Text, u: Text)
    requires PrefixFree(children) && k in children && l in children && k + s == l + u
    ensures k == l && s == u
  {
    PrefixesCompare(k, l, k + s);
    assert s == (k + s)[|k|..] && u == (l + u)[|l|..];
  }

  /** `merged` holds exactly the grandchildren, under the joined keys, for the first-level keys in `done`. */
  ghost predicate Merged(nodes: seq<Node>, children: map<Text, nat>, done: set<Text>, merged: map<Text, nat>)
    requires forall k :: k in children ==> children[k] < |nodes|
  {
    && (forall k, s :: k in done && k in children && s in nodes[children[k]].children ==>
          k + s in merged && merged[k + s] == nodes[children[k]].children[s])
    && (forall m :: m in merged ==> exists k, s ::
          k in done && k in children && s in nodes[children[k]].children && m == k + s && merged[m] == nodes[children[k]].children[s])
  }

  lemma {:induction false} MergedKey(nodes: seq<Node>, idx: nat, merged: map<Text, nat>, m: Text) returns (k: Text, s: Text)
    requires Arena(nodes) && idx < |nodes| && Merged(nodes, nodes[idx].children, nodes[idx].children.Keys, merged) && m in merged
    ensures var children := nodes[idx].children;
            && k in children && s in nodes[children[k]].children && m == k + s && merged[m] == nodes[children[k]].children[s]
    ensures idx + 1 < merged[m] < |nodes| && k != [] && s != [] && m != []
  {
    var children := nodes[idx].children;
    k, s :| k in children.Keys && k in children && s in nodes[children[k]].children && m == k + s
            && merged[m] == nodes[children[k]].children[s];
    assert NodeOk(nodes[idx], idx, |nodes|);
    assert NodeOk(nodes[children[k]], children[k], |nodes|);
  }

  lemma {:induction false} MergedOk(nodes: seq<Node>, idx: nat, merged: map<Text, nat>)
    requires Arena(nodes) && idx < |nodes| && Merged(nodes, nodes[idx].children, nodes[idx].children.Keys, merged)
    ensures forall m :: m in merged ==> idx + 1 < merged[m] < |nodes| && m != []
    ensures PrefixFree(merged)
  {
    forall m | m in merged ensures idx + 1 < merged[m] < |nodes| && m != [] {
      var k, s := MergedKey(nodes, idx, merged, m);
    }
    forall m, q | m in merged && q in merged && m <= q ensures m == q {
      var k, s := MergedKey(nodes, idx, merged, m);
      var l, u := MergedKey(nodes, idx, merged, q);
      JoinedPrefix(nodes, idx, k, s, l, u);
    }
  }

  /** Joined keys are prefix-free because both their parts are. */
  lemma {:induction false} JoinedPrefix(nodes: seq<Node>, idx: nat, k: Text, s: Text, l: Text, u: Text)
    requires Arena(nodes) && idx < |nodes| && k in nodes[idx].children && l in nodes[idx].children
    requires s in nodes[nodes[idx].children[k]].children && u in nodes[nodes[idx].children[l]].children
    requires k + s <= l + u
    ensures k + s == l + u
  {
    var w := l + u;
    assert k <= w by { assert k == (k + s)[..|k|] == w[..|k|]; }
    PrefixesCompare(k, l, w);
    assert PrefixFree(nodes[idx].children) by { assert NodeOk(nodes[idx], idx, |nodes|); }
    assert k == l;
    SuffixPrefix(k, s, u);
    assert PrefixFree(nodes[nodes[idx].children[k]].children) by {
      assert NodeOk(nodes[idx], idx, |nodes|);
      assert NodeOk(nodes[nodes[idx].children[k]], nodes[idx].children[k], |nodes|);
    }
  }

  lemma {:induction false} SuffixPrefix(k: Text, s: Text, u: Text)
    requires k + s <= k + u
    ensures s <= u
  {
    assert s == (k + s)[|k|..] && u == (k + u)[|k|..];
    assert u[..|s|] == (k + u)[..|k| + |s|][|k|..];
  }

  lemma {:induction false} LiteralsJoin(k: Text, s: Text, ts: seq<Token>)
    ensures Literals(k + s) <= ts <==> Literals(k) <= ts && Literals(s) <= ts[|k|..]
  {
    assert Literals(k + s) == Literals(k) + Literals(s);
    if Literals(k + s) <= ts {
      assert ts[..|k|] == Literals(k + s)[..|k|] == Literals(k);
      assert ts[|k|..|k| + |s|] == Literals(k + s)[|k|..] == Literals(s);
    }
    if Literals(k) <= ts && Literals(s) <= ts[|k|..] {
      assert ts[..|k| + |s|] == ts[..|k|] + ts[|k|..][..|s|];
    }
  }

  /** A simple child stores only through its own children. */
  lemma {:induction false} SimpleStores(nodes: seq<Node>, c: nat, ts: seq<Token>, r: nat)
    requires Arena(nodes) && c < |nodes| && nodes[c].IsSimple()
    ensures Stores(nodes, c, ts, r) ==> exists s :: StoresByKey(nodes, c, s, ts, r)
  {
    if Stores(nodes, c, ts, r) {
      var s :| s in nodes[c].children && Literals(s) <= ts && Stores(nodes, nodes[c].children[s], ts[|s|..], r);
      assert StoresByKey(nodes, c, s, ts, r);
    }
  }

  /** A route through a child and a grandchild is a route through the joined key. */
  lemma {:induction false} JoinedRoute(a: seq<Node>, b: seq<Node>, idx: nat, k: Text, s: Text, ts: seq<Token>, r: nat)
    requires Arena(a) && Arena(b) && idx < |a| && |a| == |b| && forall i :: idx < i < |a| ==> a[i] == b[i]
    requires k in a[idx].children && s in a[a[idx].children[k]].children
    requires k + s in b[idx].children && b[idx].children[k + s] == a[a[idx].children[k]].children[s]
    ensures StoresByKey(b, idx, k + s, ts, r)
        <==> Literals(k) <= ts && StoresByKey(a, a[idx].children[k], s, ts[|k|..], r)
  {
    var c := a[idx].children[k];
    LiteralsJoin(k, s, ts);
    if Literals(k + s) <= ts {
      assert ts[|k|..][|s|..] == ts[|k + s|..];
      StoresAbove(a, b, a[c].children[s], ts[|k + s|..], r);
    }
  }

  /** Path compression of one node whose children are all simple loses no route and invents none. */
  lemma {:induction false} MergeSame(a: seq<Node>, b: seq<Node>, idx: nat, ts: seq<Token>, r: nat)
    requires Arena(a) && Arena(b) && idx < |a| && |a| == |b| && forall i :: idx < i < |a| ==> a[i] == b[i]
    requires a[idx].ruleIndex == b[idx].ruleIndex && a[idx].params == b[idx].params
    requires (exists k :: StoresByKey(a, idx, k, ts, r)) <==> (exists m :: StoresByKey(b, idx, m, ts, r))
    ensures Stores(a, idx, ts, r) <==> Stores(b, idx, ts, r)
  {
    if ParamLeads(a, idx, ts) {
      assert NodeOk(a[idx], idx, |a|);
      StoresAbove(a, b, a[idx].params[ts[0].param], ts[1..], r);
    }
    StoresByWhich(a, idx, ts, r);
    StoresByWhich(b, idx, ts, r);
  }

  lemma {:induction false} StoresByWhich(nodes: seq<Node>, idx: nat, ts: seq<Token>, r: nat)
    requires Arena(nodes) && idx < |nodes|
    ensures Stores(nodes, idx, ts, r) <==>
      || (ts == [] && r == nodes[idx].ruleIndex && r > 0)
      || StoresByParam(nodes, idx, ts, r)
      || exists k :: StoresByKey(nodes, idx, k, ts, r)
  {
    if k :| k in nodes[idx].children && Literals(k) <= ts && Stores(nodes, nodes[idx].children[k], ts[|k|..], r) {
      assert StoresByKey(nodes, idx, k, ts, r);
    }
  }

  lemma {:induction false} MergeKeeps(a: seq<Node>, b: seq<Node>, idx: nat, k: Text, ts: seq<Token>, r: nat)
    requires Arena(a) && Arena(b) && idx < |a| && |a| == |b| && forall i :: idx < i < |a| ==> a[i] == b[i]
    requires StoresByKey(a, idx, k, ts, r) && a[a[idx].children[k]].IsSimple()
    requires forall s :: s in a[a[idx].children[k]].children ==>
               k + s in b[idx].children && b[idx].children[k + s] == a[a[idx].children[k]].children[s]
    ensures exists m :: StoresByKey(b, idx, m, ts, r)
  {
    var c := a[idx].children[k];
    SimpleStores(a, c, ts[|k|..], r);
    var s :| StoresByKey(a, c, s, ts[|k|..], r);
    JoinedRoute(a, b, idx, k, s, ts, r);
  }

  lemma {:induction false} MergeInventsNothing(a: seq<Node>, b: seq<Node>, idx: nat, k: Text, s: Text, ts: seq<Token>, r: nat)
    requires Arena(a) && Arena(b) && idx < |a| && |a| == |b| && forall i :: idx < i < |a| ==> a[i] == b[i]
    requires k in a[idx].children && s in a[a[idx].children[k]].children
    requires k + s in b[idx].children && b[idx].children[k + s] == a[a[idx].children[k]].children[s]
    requires StoresByKey(b, idx, k + s, ts, r)
    ensures StoresByKey(a, idx, k, ts, r)
  {
    JoinedRoute(a, b, idx, k, s, ts, r);
    StoresByWhich(a, a[idx].children[k], ts[|k|..], r);
  }

  /** `b` is `a` with node `idx` compressed. */
  ghost predicate Compressed(a: seq<Node>, b: seq<Node>, idx: nat) {
    && Arena(a) && Arena(b) && idx < |a| && |a| == |b|
    && (forall i :: 0 <= i < |a| && i != idx ==> a[i] == b[i])
    && a[idx].ruleIndex == b[idx].ruleIndex && a[idx].params == b[idx].params
    && (forall k :: k in a[idx].children ==> a[a[idx].children[k]].IsSimple())
    && Merged(a, a[idx].children, a[idx].children.Keys, b[idx].children)
  }

  lemma {:induction false} CompressedKeeps(a: seq<Node>, b: seq<Node>, idx: nat, k: Text, ts: seq<Token>, r: nat)
    requires Compressed(a, b, idx) && StoresByKey(a, idx, k, ts, r)
    ensures exists m :: StoresByKey(b, idx, m, ts, r)
  {
    MergeKeeps(a, b, idx, k, ts, r);
  }

  lemma {:induction false} CompressedInventsNothing(a: seq<Node>, b: seq<Node>, idx: nat, m: Text, ts: seq<Token>, r: nat)
    requires Compressed(a, b, idx) && StoresByKey(b, idx, m, ts, r)
    ensures exists k :: StoresByKey(a, idx, k, ts, r)
  {
    var k, s := MergedKey(a, idx, b[idx].children, m);
    MergeInventsNothing(a, b, idx, k, s, ts, r);
  }

  /** Path compression changes what no node stores. */
  lemma {:induction false} CompressedSame(a: seq<Node>, b: seq<Node>, idx: nat)
    requires Compressed(a, b, idx)
    ensures SameStores(a, b)
  {
    forall ts, r ensures Stores(a, idx, ts, r) <==> Stores(b, idx, ts, r) {
      if k :| StoresByKey(a, idx, k, ts, r) {
        CompressedKeeps(a, b, idx, k, ts, r);
      }
      if m :| StoresByKey(b, idx, m, ts, r) {
        CompressedInventsNothing(a, b, idx, m, ts, r);
      }
      MergeSame(a, b, idx, ts, r);
    }
    forall i, ts, r | 0 <= i < |a| ensures Stores(a, i, ts, r) <==> Stores(b, i, ts, r) {
      ReplaceSame(a, b, idx, i, ts, r);
    }
  }
}
