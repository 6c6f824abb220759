/** The trie object: adding a pattern, compressing paths, finding the best route. */
module RouteIndex {
  import opened Bytes
  import opened RoutePattern
  import opened RouteTrie
  import opened RouteSearch
  import opened RouteBuild

  lemma {:induction false} SameStoresTrans(a: seq<Node>, b: seq<Node>, c: seq<Node>)
    requires Arena(a) && Arena(b) && Arena(c) && |a| == |b| == |c| && SameStores(a, b) && SameStores(b, c)
    ensures SameStores(a, c)
  {
  }

  lemma {:induction false} AllParamsTried(tried: set<Branch>)
    requires tried == set j | 0 <= j < |PARAMS| :: ByParam(PARAMS[j])
    ensures tried == {ByParam(IntParam), ByParam(UintParam), ByParam(DoubleParam), ByParam(StringParam), ByParam(PathParam)}
  {
    assert ByParam(PARAMS[0]) in tried && ByParam(PARAMS[1]) in tried && ByParam(PARAMS[2]) in tried
        && ByParam(PARAMS[3]) in tried && ByParam(PARAMS[4]) in tried;
  }

  const PARAMS: seq<Param> := [IntParam, UintParam, DoubleParam, StringParam, PathParam]

  /** The children of a node under keys lengthened by `k`. */
  ghost function JoinKeys(k: Text, children: map<Text, nat>): map<Text, nat> {
    map m | m in (set u | u in children :: k + u) :: children[m[|k|..]]
  }

  lemma {:induction false} JoinKeysAt(k: Text, children: map<Text, nat>, u: Text)
    requires u in children
    ensures k + u in JoinKeys(k, children) && JoinKeys(k, children)[k + u] == children[u]
  {
    assert (k + u)[|k|..] == u;
  }

  lemma {:induction false} JoinKeysOnly(k: Text, children: map<Text, nat>, m: Text) returns (u: Text)
    requires m in JoinKeys(k, children)
    ensures u in children && m == k + u && JoinKeys(k, children)[m] == children[u]
  {
    u :| u in children && m == k + u;
    assert (k + u)[|k|..] == u;
  }

  lemma {:induction false} JoinOneMore(k: Text, children: map<Text, nat>, s: Text, c: nat)
    requires s !in children
    ensures JoinKeys(k, children[s := c]) == JoinKeys(k, children)[k + s := c]
  {
    var more := JoinKeys(k, children[s := c]);
    var less := JoinKeys(k, children)[k + s := c];
    forall m | m in more ensures m in less && less[m] == more[m] {
      var u := JoinKeysOnly(k, children[s := c], m);
      if u in children {
        JoinKeysAt(k, children, u);
        assert m[|k|..] == u && (k + s)[|k|..] == s;
      }
    }
    forall m | m in less ensures m in more {
      if m != k + s {
        var u := JoinKeysOnly(k, children, m);
        JoinKeysAt(k, children[s := c], u);
      } else {
        JoinKeysAt(k, children[s := c], s);
      }
    }
  }

  lemma {:induction false} UpdateRight(a: map<Text, nat>, b: map<Text, nat>, k: Text, c: nat)
    ensures (a + b)[k := c] == a + b[k := c]
  {
  }

  /** Adding the joined keys of one more child to the merged map loses none of those already there. */
  lemma {:induction false} MergedOneMore(nodes: seq<Node>, idx: nat, k: Text, done: set<Text>, before: map<Text, nat>)
    requires Arena(nodes) && idx < |nodes| && k in nodes[idx].children && done <= nodes[idx].children.Keys && k !in done
    requires Merged(nodes, nodes[idx].children, done, before)
    ensures Merged(nodes, nodes[idx].children, done + {k}, before + JoinKeys(k, nodes[nodes[idx].children[k]].children))
  {
    var children := nodes[idx].children;
    var sub := nodes[children[k]].children;
    var merged := before + JoinKeys(k, sub);
    assert PrefixFree(children) by { assert NodeOk(nodes[idx], idx, |nodes|); }
    forall l, u | l in done + {k} && u in nodes[children[l]].children
      ensures l + u in merged && merged[l + u] == nodes[children[l]].children[u]
    {
      if l == k {
        JoinKeysAt(k, sub, u);
      } else {
        if l + u in JoinKeys(k, sub) {
          var v := JoinKeysOnly(k, sub, l + u);
          KeySplitsOneWay(children, l, u, k, v);
        }
      }
    }
    forall m | m in merged ensures exists l, u ::
      l in done + {k} && l in children && u in nodes[children[l]].children && m == l + u && merged[m] == nodes[children[l]].children[u]
    {
      if m in JoinKeys(k, sub) {
        var u := JoinKeysOnly(k, sub, m);
        assert k in done + {k} && merged[m] == nodes[children[k]].children[u];
      } else {
        var l, u :| l in done && l in children && u in nodes[children[l]].children && m == l + u
                    && before[m] == nodes[children[l]].children[u];
        assert l in done + {k};
      }
    }
  }

  /** The parameters on the way to the current node; the search pushes before it descends and pops afterwards. */
  class ParamStack {
    var params: Params

    constructor ()
      ensures params == EMPTY
    {
      params := EMPTY;
    }

    method Push(p: Params)
      modifies this
      ensures params == old(params).Join(p)
    {
      params := params.Join(p);
    }

    /** Takes back what was pushed last. */
    method Pop(p: Params, ghost before: Params)
      requires params == before.Join(p)
      modifies this
      ensures params == before
    {
      params := Params(params.ints[..|params.ints| - |p.ints|], params.uints[..|params.uints| - |p.uints|],
                       params.doubles[..|params.doubles| - |p.doubles|], params.strings[..|params.strings| - |p.strings|]);
    }
  }

  class Trie {
    var nodes: seq<Node>
    ghost var labels: seq<seq<Token>>  // the path of each node, until paths are compressed

    constructor ()
      ensures nodes == [NO_RULE] && Plain(nodes, labels)
    {
      nodes := [NO_RULE];
      labels := [[]];
    }

    // -------------------------------------------------------------- adding

    /** The child of `idx` for a token, made when it is missing. */
    method Descend(idx: nat, t: Token) returns (child: nat)
      requires Plain(nodes, labels) && idx < |nodes|
      modifies this
      ensures Plain(nodes, labels) && |nodes| >= |old(nodes)|
      ensures child < |nodes| && labels[child] == old(labels)[idx] + [t]
      ensures SameRoutes(old(nodes), old(labels), nodes, labels)
    {
      var known := Child(nodes[idx], t);
      if known.Some? {
        assert NodeOk(nodes[idx], idx, |nodes|);
        return known.value;
      }
      child := |nodes|;
      nodes := nodes + [NO_RULE];
      nodes := nodes[idx := WithChild(nodes[idx], t, child)];
      GrowPlain(old(nodes), labels, idx, t, nodes);
      labels := labels + [labels[idx] + [t]];
    }

    /** One turn of the loop: the token at `i` is read and its child entered. */
    method Advance(url: Text, i: nat, idx: nat) returns (next: nat, child: nat)
      requires Plain(nodes, labels) && idx < |nodes| && i < |url| && TokensFrom(url, i).Some?
      modifies this
      ensures Plain(nodes, labels) && SameRoutes(old(nodes), old(labels), nodes, labels) && child < |labels|
      ensures i < next <= |url| && TokensFrom(url, next).Some?
      ensures labels[child] + TokensFrom(url, next).value == old(labels[idx]) + TokensFrom(url, i).value
    {
      var t, width := Lit(url[i]), 1;
      if url[i] == '<' {
        var tag := TagAt(url, i, 0);
        t, width := Tag(tag.value.0), |tag.value.1|;
      }
      next := i + width;
      NextToken(url, i, t, next);
      ghost var here, tail := labels[idx], TokensFrom(url, next).value;
      child := Descend(idx, t);
      Concat3(here, [t], tail);
    }

    /** The node at the end of a pattern, made with those on the way when they are missing. */
    method Walk(url: Text) returns (idx: nat)
      requires Plain(nodes, labels) && TokensFrom(url, 0).Some?
      modifies this
      ensures Plain(nodes, labels) && SameRoutes(old(nodes), old(labels), nodes, labels)
      ensures idx < |labels| && labels[idx] == TokensFrom(url, 0).value
    {
      ghost var all := TokensFrom(url, 0).value;
      idx := 0;
      var i: nat := 0;
      assert labels[0] + all == all;
      while i < |url|
        invariant Plain(nodes, labels) && idx < |labels| && i <= |url| && TokensFrom(url, i).Some?
        invariant labels[idx] + TokensFrom(url, i).value == all
        invariant SameRoutes(old(nodes), old(labels), nodes, labels)
        decreases |url| - i
      {
        ghost var a, la := nodes, labels;
        i, idx := Advance(url, i, idx);
        SameRoutesTrans(old(nodes), old(labels), a, la, nodes, labels);
      }
      assert labels[idx] + [] == labels[idx];
    }

    /**
     * Adds a pattern for a rule. Fails, leaving the routes as they were, exactly when the pattern already has a rule;
     * otherwise the trie stores this one route more.
     */
    method Add(url: Text, ruleIndex: nat) returns (ok: bool)
      requires Plain(nodes, labels) && ruleIndex > 0 && TokensFrom(url, 0).Some?
      modifies this
      ensures Plain(nodes, labels)
      ensures ok == !(exists r :: Stores(old(nodes), 0, TokensFrom(url, 0).value, r))
      ensures forall ts, r :: Stores(nodes, 0, ts, r) <==>
                Stores(old(nodes), 0, ts, r) || (ok && ts == TokensFrom(url, 0).value && r == ruleIndex)
    {
      var idx := Walk(url);
      ghost var all := TokensFrom(url, 0).value;
      SameRoutesStore(old(nodes), old(labels), nodes, labels);
      TakenExactly(old(nodes), old(labels), nodes, labels, idx, all);
      if nodes[idx].ruleIndex != 0 {
        return false;
      }
      SetRuleStores(nodes, labels, idx, ruleIndex);
      nodes := nodes[idx := nodes[idx].(ruleIndex := ruleIndex)];
      return true;
    }

    // -------------------------------------------------------------- finding

    /** One parameter branch: convert, push, descend, pop. */
    method FindParam(n: Numbers, url: Text, idx: nat, pos: nat, p: Param, stack: ParamStack) returns (f: Found)
      requires Arena(nodes) && idx < |nodes| && n.Valid() && pos < |url|
      modifies stack
      ensures stack.params == old(stack.params)
      ensures BestAmong(nodes, n, idx, url, pos, {ByParam(p)}, stack.params, f)
      decreases |nodes| - idx, 0
    {
      f := Found(0, EMPTY);
      ghost var given := stack.params;
      var t := Take(n, Tag(p), url, pos);
      if p in nodes[idx].params {
        if t.Some? {
          assert NodeOk(nodes[idx], idx, |nodes|);
          TakeMovesOn(n, Tag(p), url, pos);
          stack.Push(t.value.captured);
          f := Find(n, url, nodes[idx].params[p], t.value.end, stack);
          stack.Pop(t.value.captured, given);
        }
      }
      ParamBranch(nodes, n, idx, url, pos, p, given, f);
    }

    /** One key branch. */
    method FindKey(n: Numbers, url: Text, idx: nat, pos: nat, k: Text, stack: ParamStack) returns (f: Found)
      requires Arena(nodes) && idx < |nodes| && n.Valid() && pos < |url| && k in nodes[idx].children
      modifies stack
      ensures stack.params == old(stack.params)
      ensures BestAmong(nodes, n, idx, url, pos, {ByKey(k)}, stack.params, f)
      decreases |nodes| - idx, 0
    {
      f := Found(0, EMPTY);
      if StandsAt(url, pos, k) {
        assert NodeOk(nodes[idx], idx, |nodes|);
        f := Find(n, url, nodes[idx].children[k], pos + |k|, stack);
      }
      KeyBranch(nodes, n, idx, url, pos, k, stack.params, f);
    }

    /**
     * The least rule whose pattern, read off the trie, matches the rest of the url, with its parameters,
     * in whatever order the children are visited. The parameter stack is left as it was.
     */
    method Find(n: Numbers, url: Text, idx: nat, pos: nat, stack: ParamStack) returns (f: Found)
      requires Arena(nodes) && idx < |nodes| && n.Valid() && pos <= |url|
      modifies stack
      ensures stack.params == old(stack.params)
      ensures IsBest(nodes, n, idx, url, pos, stack.params, f)
      decreases |nodes| - idx, 1
    {
      if pos == |url| {
        AtEnd(nodes, n, idx, url, stack.params);
        return Found(nodes[idx].ruleIndex, stack.params);
      }
      ghost var given := stack.params;
      f := Found(0, EMPTY);
      ghost var tried: set<Branch> := {};
      for i := 0 to |PARAMS|
        invariant stack.params == given
        invariant BestAmong(nodes, n, idx, url, pos, tried, given, f)
        invariant tried == set j | 0 <= j < i :: ByParam(PARAMS[j])
      {
        var ret := FindParam(n, url, idx, pos, PARAMS[i], stack);
        TriedBoth(nodes, n, idx, url, pos, tried, {ByParam(PARAMS[i])}, given, f, ret);
        tried := tried + {ByParam(PARAMS[i])};
        f := Better(f, ret);
      }
      ghost var params := tried;
      var keys := nodes[idx].children.Keys;
      while keys != {}
        invariant stack.params == given && keys <= nodes[idx].children.Keys
        invariant BestAmong(nodes, n, idx, url, pos, tried, given, f)
        invariant tried == params + set k | k in nodes[idx].children && k !in keys :: ByKey(k)
        decreases keys
      {
        var k :| k in keys;
        var ret := FindKey(n, url, idx, pos, k, stack);
        TriedBoth(nodes, n, idx, url, pos, tried, {ByKey(k)}, given, f, ret);
        tried := tried + {ByKey(k)};
        keys := keys - {k};
        f := Better(f, ret);
      }
      AllParamsTried(params);
      assert tried == AllBranches(nodes, idx);
      AllTried(nodes, n, idx, url, pos, given, f);
    }

    // -------------------------------------------------------------- compression

    /** The grandchildren of a node under joined keys, gathered in any order. */
    method Merge(idx: nat) returns (merged: map<Text, nat>)
      requires Arena(nodes) && idx < |nodes|
      ensures Merged(nodes, nodes[idx].children, nodes[idx].children.Keys, merged)
    {
      var children := nodes[idx].children;
      assert NodeOk(nodes[idx], idx, |nodes|);
      merged := map[];
      var keys := children.Keys;
      while keys != {}
        invariant keys <= children.Keys
        invariant Merged(nodes, children, children.Keys - keys, merged)
        decreases keys
      {
        var k :| k in keys;
        merged := MergeOne(idx, k, children.Keys - keys, merged);
        keys := keys - {k};
        assert children.Keys - keys == children.Keys - (keys + {k}) + {k};
      }
    }

    /** The inner loop: the child's keys, lengthened by its own key, are entered into `before` in any order. */
    static method EnterJoined(k: Text, children: map<Text, nat>, before: map<Text, nat>) returns (merged: map<Text, nat>)
      ensures merged == before + JoinKeys(k, children)
    {
      merged := before;
      var rest := children.Keys;
      ghost var entered: map<Text, nat> := map[];
      assert before + JoinKeys(k, entered) == before;
      while rest != {}
        invariant rest <= children.Keys
        invariant entered.Keys == children.Keys - rest
        invariant forall s :: s in entered ==> entered[s] == children[s]
        invariant merged == before + JoinKeys(k, entered)
        decreases rest
      {
        var s :| s in rest;
        JoinOneMore(k, entered, s, children[s]);
        UpdateRight(before, JoinKeys(k, entered), k + s, children[s]);
        merged := merged[k + s := children[s]];
        rest := rest - {s};
        entered := entered[s := children[s]];
      }
      assert entered == children;
    }

    method MergeOne(idx: nat, k: Text, ghost done: set<Text>, before: map<Text, nat>) returns (merged: map<Text, nat>)
      requires Arena(nodes) && idx < |nodes| && k in nodes[idx].children && k !in done && done <= nodes[idx].children.Keys
      requires Merged(nodes, nodes[idx].children, done, before)
      ensures Merged(nodes, nodes[idx].children, done + {k}, merged)
    {
      assert NodeOk(nodes[idx], idx, |nodes|);
      var child := nodes[nodes[idx].children[k]];
      merged := EnterJoined(k, child.children, before);
      MergedOneMore(nodes, idx, k, done, before);
    }

    method OptimizeParams(idx: nat)
      requires Arena(nodes) && idx < |nodes|
      modifies this
      ensures Arena(nodes) && |nodes| == |old(nodes)| && SameStores(old(nodes), nodes)
      ensures forall i :: 0 <= i <= idx ==> nodes[i] == old(nodes[i])
      decreases |nodes| - idx, 0
    {
      for i := 0 to |PARAMS|
        invariant Arena(nodes) && |nodes| == |old(nodes)| && SameStores(old(nodes), nodes)
        invariant forall j :: 0 <= j <= idx ==> nodes[j] == old(nodes[j])
      {
        if PARAMS[i] in nodes[idx].params {
          ghost var before := nodes;
          var child := nodes[idx].params[PARAMS[i]];
          assert NodeOk(nodes[idx], idx, |nodes|) && NodeOk(nodes[child], child, |nodes|);
          OptimizeNode(child, child);
          SameStoresTrans(old(nodes), before, nodes);
        }
      }
    }

    method OptimizeChildren(idx: nat)
      requires Arena(nodes) && idx < |nodes|
      modifies this
      ensures Arena(nodes) && |nodes| == |old(nodes)| && SameStores(old(nodes), nodes)
      ensures forall i :: 0 <= i <= idx ==> nodes[i] == old(nodes[i])
      decreases |nodes| - idx, 0
    {
      var keys := nodes[idx].children.Keys;
      while keys != {}
        invariant Arena(nodes) && |nodes| == |old(nodes)| && SameStores(old(nodes), nodes)
        invariant forall j :: 0 <= j <= idx ==> nodes[j] == old(nodes[j])
        invariant keys <= nodes[idx].children.Keys
        decreases keys
      {
        var k :| k in keys;
        ghost var before := nodes;
        var child := nodes[idx].children[k];
        assert NodeOk(nodes[idx], idx, |nodes|) && NodeOk(nodes[child], child, |nodes|);
        OptimizeNode(child, child);
        SameStoresTrans(old(nodes), before, nodes);
        keys := keys - {k};
      }
    }

    /** Whether every child of a node may be merged into it. */
    method AllChildrenSimple(idx: nat) returns (simple: bool)
      requires Arena(nodes) && idx < |nodes|
      ensures simple == forall k :: k in nodes[idx].children ==> nodes[nodes[idx].children[k]].IsSimple()
    {
      assert NodeOk(nodes[idx], idx, |nodes|);
      var children := nodes[idx].children;
      var keys := children.Keys;
      while keys != {}
        invariant keys <= children.Keys
        invariant forall k :: k in children && k !in keys ==> nodes[children[k]].IsSimple()
        decreases keys
      {
        var k :| k in keys;
        if !nodes[children[k]].IsSimple() {
          return false;
        }
        keys := keys - {k};
      }
      return true;
    }

    /**
     * Path compression below node `idx`. It ends, keeps the arena well formed and its older nodes untouched,
     * and leaves every route below every node as it was.
     */
    method OptimizeNode(idx: nat, ghost floor: nat)
      requires Arena(nodes) && idx < |nodes| && floor < |nodes|
      requires forall k :: k in nodes[idx].children ==> floor < nodes[idx].children[k]
      modifies this
      ensures Arena(nodes) && |nodes| == |old(nodes)| && SameStores(old(nodes), nodes)
      ensures forall i :: 0 <= i < idx ==> nodes[i] == old(nodes[i])
      decreases |nodes| - idx, |nodes| - floor
    {
      OptimizeParams(idx);
      if nodes[idx].children == map[] {
        return;
      }
      var simple := AllChildrenSimple(idx);
      if simple {
        ghost var before := nodes;
        var merged := Merge(idx);
        assert NodeOk(nodes[idx], idx, |nodes|);
        ghost var k :| k in nodes[idx].children;
        MergedAbove(nodes, idx, floor, merged);
        nodes := nodes[idx := nodes[idx].(children := merged)];
        assert forall i :: 0 <= i < |nodes| ==> NodeOk(before[i], i, |before|);
        CompressedSame(before, nodes, idx);
        SameStoresTrans(old(nodes), before, nodes);
        ghost var after := nodes;
        OptimizeNode(idx, floor + 1);
        SameStoresTrans(old(nodes), after, nodes);
      } else {
        OptimizeChildren(idx);
      }
    }
  }

  lemma {:induction false} MergedAbove(nodes: seq<Node>, idx: nat, floor: nat, merged: map<Text, nat>)
    requires Arena(nodes) && idx < |nodes| && Merged(nodes, nodes[idx].children, nodes[idx].children.Keys, merged)
    requires forall k :: k in nodes[idx].children ==> floor < nodes[idx].children[k]
    ensures forall m :: m in merged ==> floor + 1 < merged[m] < |nodes|
    ensures NodeOk(nodes[idx].(children := merged), idx, |nodes|)
  {
    assert NodeOk(nodes[idx], idx, |nodes|);
    MergedOk(nodes, idx, merged);
    forall m | m in merged ensures floor + 1 < merged[m] {
      var k, s := MergedKey(nodes, idx, merged, m);
      assert NodeOk(nodes[nodes[idx].children[k]], nodes[idx].children[k], |nodes|);
    }
  }
}
