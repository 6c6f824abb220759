/** What the backtracking search of the trie owes its caller, branch by branch. */
module RouteSearch {
  import opened Bytes
  import opened RoutePattern
  import opened RouteTrie

  /** The answer of a search: the rule found, 0 for none, and the parameters it captured. */
  datatype Found = Found(rule: nat, params: Params)

  /** Some stored pattern of rule `r` matches the url from `pos` on. */
  ghost predicate Hit(nodes: seq<Node>, n: Numbers, idx: nat, ts: seq<Token>, r: nat, url: Text, pos: nat)
    requires Arena(nodes) && idx < |nodes|
  {
    Stores(nodes, idx, ts, r) && Matches(n, ts, url, pos)
  }

  /**
   * The least rule stored below `idx` that matches the url from `pos` on, with the parameters already given
   * and those of a pattern stored for that rule.
   */
  ghost predicate IsBest(nodes: seq<Node>, n: Numbers, idx: nat, url: Text, pos: nat, given: Params, f: Found)
    requires Arena(nodes) && idx < |nodes|
  {
    && (forall ts, r :: Hit(nodes, n, idx, ts, r, url, pos) ==> 0 < f.rule <= r)
    && (f.rule != 0 ==> exists ts ::
          Hit(nodes, n, idx, ts, f.rule, url, pos) && f.params == given.Join(Captures(n, ts, url, pos)))
  }

  /** The ways on from a node. */
  datatype Branch = ByParam(p: Param) | ByKey(k: Text)

  ghost predicate Via(nodes: seq<Node>, idx: nat, b: Branch, ts: seq<Token>, r: nat)
    requires Arena(nodes) && idx < |nodes|
  {
    match b
    case ByParam(p) => StoresByParam(nodes, idx, ts, r) && ts[0].param == p
    case ByKey(k) => StoresByKey(nodes, idx, k, ts, r)
  }

  /** `IsBest` among the branches tried so far. */
  ghost predicate BestAmong(nodes: seq<Node>, n: Numbers, idx: nat, url: Text, pos: nat, tried: set<Branch>, given: Params, f: Found)
    requires Arena(nodes) && idx < |nodes|
  {
    && (forall b, ts, r :: b in tried && Via(nodes, idx, b, ts, r) && Matches(n, ts, url, pos) ==> 0 < f.rule <= r)
    && (f.rule != 0 ==> exists b, ts :: b in tried && Via(nodes, idx, b, ts, f.rule) && Matches(n, ts, url, pos)
                                        && f.params == given.Join(Captures(n, ts, url, pos)))
  }

  /** The better of two answers, the first where they tie. */
  function Better(f: Found, g: Found): Found {
    if g.rule != 0 && (f.rule == 0 || f.rule > g.rule) then g else f
  }

  lemma {:induction false} TriedBoth(
    nodes: seq<Node>, n: Numbers, idx: nat, url: Text, pos: nat, tried: set<Branch>, more: set<Branch>, given: Params, f: Found, g: Found)
    requires Arena(nodes) && idx < |nodes|
    requires BestAmong(nodes, n, idx, url, pos, tried, given, f) && BestAmong(nodes, n, idx, url, pos, more, given, g)
    ensures BestAmong(nodes, n, idx, url, pos, tried + more, given, Better(f, g))
  {
  }

  lemma {:induction false} JoinAssoc(a: Params, b: Params, c: Params)
    ensures a.Join(b).Join(c) == a.Join(b.Join(c))
    ensures a.Join(EMPTY) == a && EMPTY.Join(a) == a
  {
  }

  /** A parameter branch: the search goes on below the child, after what the parameter takes. */
  lemma {:induction false} ParamBranch(
    nodes: seq<Node>, n: Numbers, idx: nat, url: Text, pos: nat, p: Param, given: Params, f: Found)
    requires Arena(nodes) && idx < |nodes| && n.Valid() && pos <= |url|
    requires var t := Take(n, Tag(p), url, pos);
             if p in nodes[idx].params && t.Some? then
               nodes[idx].params[p] < |nodes|
               && IsBest(nodes, n, nodes[idx].params[p], url, t.value.end, given.Join(t.value.captured), f)
             else f.rule == 0
    ensures BestAmong(nodes, n, idx, url, pos, {ByParam(p)}, given, f)
  {
    forall ts, r | Via(nodes, idx, ByParam(p), ts, r) && Matches(n, ts, url, pos) ensures 0 < f.rule <= r {
      assert ts[0] == Tag(p);
      var t := Take(n, Tag(p), url, pos);
      assert Hit(nodes, n, nodes[idx].params[p], ts[1..], r, url, t.value.end);
    }
    if f.rule != 0 {
      var t := Take(n, Tag(p), url, pos).value;
      var ts := ParamWitness(nodes, n, idx, nodes[idx].params[p], url, pos, p, t, given, f);
    }
  }

  /** A pattern found below a parameter's child is a pattern through the parameter. */
  lemma {:induction false} ParamWitness(
    nodes: seq<Node>, n: Numbers, idx: nat, child: nat, url: Text, pos: nat, p: Param, t: Taken, given: Params, f: Found)
    returns (ts: seq<Token>)
    requires Arena(nodes) && idx < |nodes| && n.Valid() && pos <= |url| && f.rule != 0
    requires p in nodes[idx].params && nodes[idx].params[p] == child < |nodes| && Take(n, Tag(p), url, pos) == Some(t)
    requires IsBest(nodes, n, child, url, t.end, given.Join(t.captured), f)
    ensures Via(nodes, idx, ByParam(p), ts, f.rule) && Matches(n, ts, url, pos)
    ensures f.params == given.Join(Captures(n, ts, url, pos))
  {
    var us :| Hit(nodes, n, child, us, f.rule, url, t.end)
              && f.params == given.Join(t.captured).Join(Captures(n, us, url, t.end));
    ts := [Tag(p)] + us;
    assert ts[1..] == us;
    TagMatches(n, p, us, ts, url, pos, t);
    JoinAssoc(given, t.captured, Captures(n, us, url, t.end));
  }

  lemma {:induction false} TagMatches(n: Numbers, p: Param, us: seq<Token>, ts: seq<Token>, url: Text, pos: nat, t: Taken)
    requires n.Valid() && pos <= |url| && Take(n, Tag(p), url, pos) == Some(t) && Matches(n, us, url, t.end) && ts == [Tag(p)] + us
    ensures Matches(n, ts, url, pos) && Captures(n, ts, url, pos) == t.captured.Join(Captures(n, us, url, t.end))
  {
    assert ts[1..] == us;
  }

  /** A key branch: the search goes on below the child, after the key. */
  lemma {:induction false} KeyBranch(
    nodes: seq<Node>, n: Numbers, idx: nat, url: Text, pos: nat, k: Text, given: Params, f: Found)
    requires Arena(nodes) && idx < |nodes| && pos <= |url| && k in nodes[idx].children
    requires if StandsAt(url, pos, k) then
               nodes[idx].children[k] < |nodes|
               && IsBest(nodes, n, nodes[idx].children[k], url, pos + |k|, given, f)
             else f.rule == 0
    ensures BestAmong(nodes, n, idx, url, pos, {ByKey(k)}, given, f)
  {
    forall ts, r | Via(nodes, idx, ByKey(k), ts, r) && Matches(n, ts, url, pos) ensures 0 < f.rule <= r {
      assert ts == Literals(k) + ts[|k|..];
      LiteralsMatch(n, k, ts[|k|..], url, pos);
      assert Hit(nodes, n, nodes[idx].children[k], ts[|k|..], r, url, pos + |k|);
    }
    if f.rule != 0 {
      var us :| Hit(nodes, n, nodes[idx].children[k], us, f.rule, url, pos + |k|)
                && f.params == given.Join(Captures(n, us, url, pos + |k|));
      var ts := Literals(k) + us;
      assert ts[|k|..] == us;
      LiteralsMatch(n, k, us, url, pos);
      assert Via(nodes, idx, ByKey(k), ts, f.rule) && Matches(n, ts, url, pos);
    }
  }

  /** All the ways on from a node. */
  ghost function AllBranches(nodes: seq<Node>, idx: nat): set<Branch>
    requires idx < |nodes|
  {
    {ByParam(IntParam), ByParam(UintParam), ByParam(DoubleParam), ByParam(StringParam), ByParam(PathParam)}
    + set k | k in nodes[idx].children :: ByKey(k)
  }

  /** Before the end of the url, trying every branch is trying every stored pattern. */
  lemma {:induction false} AllTried(nodes: seq<Node>, n: Numbers, idx: nat, url: Text, pos: nat, given: Params, f: Found)
    requires Arena(nodes) && idx < |nodes| && pos < |url|
    requires BestAmong(nodes, n, idx, url, pos, AllBranches(nodes, idx), given, f)
    ensures IsBest(nodes, n, idx, url, pos, given, f)
  {
    forall ts: seq<Token>, r | Hit(nodes, n, idx, ts, r, url, pos) ensures 0 < f.rule <= r {
      StoresByWhich(nodes, idx, ts, r);
      if StoresByParam(nodes, idx, ts, r) {
        assert Via(nodes, idx, ByParam(ts[0].param), ts, r);
        assert ByParam(ts[0].param) in AllBranches(nodes, idx);
      } else {
        var k :| StoresByKey(nodes, idx, k, ts, r);
        assert Via(nodes, idx, ByKey(k), ts, r);
        assert ByKey(k) in AllBranches(nodes, idx);
      }
    }
    if f.rule != 0 {
      var b, ts :| b in AllBranches(nodes, idx) && Via(nodes, idx, b, ts, f.rule) && Matches(n, ts, url, pos)
                   && f.params == given.Join(Captures(n, ts, url, pos));
      StoresByWhich(nodes, idx, ts, f.rule);
      assert Hit(nodes, n, idx, ts, f.rule, url, pos);
    }
  }

  /** At the end of the url only the pattern that ends here matches. */
  lemma {:induction false} AtEnd(nodes: seq<Node>, n: Numbers, idx: nat, url: Text, given: Params)
    requires Arena(nodes) && idx < |nodes|
    ensures IsBest(nodes, n, idx, url, |url|, given, Found(nodes[idx].ruleIndex, given))
  {
    assert NodeOk(nodes[idx], idx, |nodes|);
    forall ts, r | Hit(nodes, n, idx, ts, r, url, |url|) ensures ts == [] && r == nodes[idx].ruleIndex > 0 {
      StoresByWhich(nodes, idx, ts, r);
    }
    if nodes[idx].ruleIndex != 0 {
      assert Hit(nodes, n, idx, [], nodes[idx].ruleIndex, url, |url|);
      JoinAssoc(given, EMPTY, EMPTY);
    }
  }
}
