/** The router of one request method: its rules, the trie over them, and what a request url is answered with. */
module RouteRouter {
  import opened Bytes
  import opened RoutePattern
  import opened RouteTrie
  import opened RouteSearch
  import opened RouteBuild
  import opened RouteIndex

  /** The index shared by all redirections to the url with a slash; indices of rules start after it. */
  const REDIRECT_SLASH := 1
  const FIRST_RULE := 2

  predicate WellFormed(rule: Text) {
    TokensFrom(rule, 0).Some?
  }

  function Path(rule: Text): seq<Token>
    requires WellFormed(rule)
  {
    TokensFrom(rule, 0).value
  }

  /** A directory rule is also reachable, by redirection, without its slash. */
  predicate IsDirectory(rule: Text) {
    |rule| > 1 && rule[|rule| - 1] == '/'
  }

  function WithoutSlash(rule: Text): Text
    requires IsDirectory(rule)
  {
    rule[..|rule| - 1]
  }

  /** No tag ends with a slash, so a directory pattern without its slash is a pattern. */
  lemma {:induction false} SlashIsAToken(rule: Text, p: nat)
    requires |rule| > 1 && rule[|rule| - 1] == '/' && p < |rule| && TokensFrom(rule, p).Some?
    ensures IsDirectory(rule) && TokensFrom(WithoutSlash(rule), p).Some?
    ensures TokensFrom(rule, p).value == TokensFrom(WithoutSlash(rule), p).value + [Lit('/')]
    decreases |rule| - p
  {
    var w := WithoutSlash(rule);
    if rule[p] != '<' {
      if p + 1 < |rule| {
        SlashIsAToken(rule, p + 1);
      }
    } else {
      TagBeforeSlash(rule, p, 0);
      var tag := TagAt(rule, p, 0).value;
      var next := p + |tag.1|;
      NextToken(rule, p, Tag(tag.0), next);
      SlashIsAToken(rule, next);
      TagFirst(w, p, tag, next);
    }
  }

  lemma {:induction false} TagFirst(s: Text, p: nat, tag: (Param, Text), next: nat)
    requires p < |s| && s[p] == '<' && TagAt(s, p, 0) == Some(tag) && next == p + |tag.1| && TokensFrom(s, next).Some?
    ensures TokensFrom(s, p) == Some([Tag(tag.0)] + TokensFrom(s, next).value)
  {
  }

  lemma {:induction false} TagBeforeSlash(rule: Text, p: nat, k: nat)
    requires IsDirectory(rule) && p < |rule| && k <= |TAGS| && TagAt(rule, p, k).Some?
    ensures TagAt(WithoutSlash(rule), p, k) == TagAt(rule, p, k)
    ensures p + |TagAt(rule, p, k).value.1| < |rule|
    decreases |TAGS| - k
  {
    var word := TAGS[k].1;
    assert word[|word| - 1] == '>';
    if p + |word| < |rule| {
      assert WithoutSlash(rule)[p..p + |word|] == rule[p..p + |word|];
    }
    if StandsAt(rule, p, word) {
      assert rule[p..p + |word|][|word| - 1] == rule[p + |word| - 1];
    } else {
      TagBeforeSlash(rule, p, k + 1);
    }
  }

  /** What the registered rules ask for: each its own path, and the redirected paths under the shared index. */
  ghost predicate Routed(rules: seq<Text>, ts: seq<Token>, r: nat) {
    || (FIRST_RULE <= r < |rules| && WellFormed(rules[r]) && ts == Path(rules[r]))
    || (r == REDIRECT_SLASH && exists i :: FIRST_RULE <= i < |rules| && Redirects(rules[i], ts))
  }

  predicate Redirects(rule: Text, ts: seq<Token>) {
    IsDirectory(rule) && WellFormed(WithoutSlash(rule)) && ts == Path(WithoutSlash(rule))
  }

  /** A path no rule asks for yet. */
  ghost predicate Free(rules: seq<Text>, ts: seq<Token>) {
    !exists r :: Routed(rules, ts, r)
  }

  lemma {:induction false} RoutedOneMore(rules: seq<Text>, rule: Text, ts: seq<Token>, r: nat)
    requires |rules| >= FIRST_RULE && WellFormed(rule)
    ensures Routed(rules + [rule], ts, r) <==>
              || Routed(rules, ts, r)
              || (r == |rules| && ts == Path(rule))
              || (r == REDIRECT_SLASH && Redirects(rule, ts))
  {
    var more := rules + [rule];
    if i :| FIRST_RULE <= i < |rules| && Redirects(rules[i], ts) {
      assert more[i] == rules[i];
    }
    if Redirects(rule, ts) {
      assert more[|rules|] == rule;
    }
  }

  /** What a request gets. */
  datatype Reply = NotFound | Redirect(location: Text) | Handled(rule: nat, params: Params) | Corrupted

  /** Adds the slash, behind the host the request names, if it names one. */
  method WithSlash(host: Text, url: Text) returns (location: Text)
    ensures location == (if host == [] then url else "http://" + host + url) + "/"
  {
    if host == [] {
      location := url + "/";
    } else {
      location := "http://" + host + url + "/";
    }
  }

  class PerMethod {
    var rules: seq<Text>
    var trie: Trie

    /** The trie stores what the rules ask for, wherever its nodes have moved. */
    ghost predicate Serves()
      reads this, trie
    {
      && |rules| >= FIRST_RULE
      && (forall i :: FIRST_RULE <= i < |rules| ==> WellFormed(rules[i]))
      && Arena(trie.nodes)
      && forall ts, r :: Stores(trie.nodes, 0, ts, r) <==> Routed(rules, ts, r)
    }

    ghost predicate Building()
      reads this, trie
    {
      Serves() && Plain(trie.nodes, trie.labels)
    }

    constructor ()
      ensures Building() && rules == ["", ""] && fresh(trie)
    {
      rules := ["", ""];
      trie := new Trie();
      new;
      StoresByLabel(trie.nodes, trie.labels);
    }

    /**
     * Registers a rule. It is refused exactly when its path, or the path it is redirected from,
     * already belongs to some rule.
     */
    method AddRule(rule: Text) returns (ok: bool)
      requires Building() && WellFormed(rule)
      modifies this, trie
      ensures trie == old(trie) && rules == old(rules) + [rule]
      ensures ok <==> Free(old(rules), Path(rule))
                      && forall ts :: Redirects(rule, ts) ==> Free(old(rules), ts)
      ensures ok ==> Building()
    {
      ghost var before, nodes0 := rules, trie.nodes;
      FreeIsUnstored(before, nodes0, Path(rule));
      rules := rules + [rule];
      ok := trie.Add(rule, |rules| - 1);
      ghost var nodes1 := trie.nodes;
      if ok && IsDirectory(rule) {
        SlashIsAToken(rule, 0);
        var short := WithoutSlash(rule);
        ok := trie.Add(short, REDIRECT_SLASH);
        ShortPathTaken(before, rule, nodes0, nodes1);
      }
      if ok {
        forall ts, r ensures Stores(trie.nodes, 0, ts, r) <==> Routed(rules, ts, r) {
          RoutedOneMore(before, rule, ts, r);
        }
      }
    }

    /** Compresses the trie; refused when the root is not a plain fork. Nothing it serves changes. */
    method Validate() returns (ok: bool)
      requires Building()
      modifies trie
      ensures ok ==> Serves()
      ensures !ok ==> Building()
      ensures ok ==> forall ts: seq<Token>, r :: Routed(rules, ts, r) ==> ts != [] && ts[0].Lit?
    {
      if !trie.nodes[0].IsSimple() {
        return false;
      }
      SimpleHead(trie.nodes);
      ghost var before := trie.nodes;
      assert NodeOk(before[0], 0, |before|);
      trie.OptimizeNode(0, 0);
      return true;
    }

    /**
     * The answer to a request, before or after compression: the least rule index whose path matches the url decides,
     * and a rule is given the parameters its own pattern captures. A redirection adds the slash, behind the host the
     * request names, if it names one.
     */
    method Handle(n: Numbers, url: Text, host: Text) returns (reply: Reply)
      requires Serves() && n.Valid()
      ensures reply != Corrupted
      ensures reply.NotFound? <==> forall ts, r :: Routed(rules, ts, r) ==> !Matches(n, ts, url, 0)
      ensures reply.Redirect? <==> exists ts :: Routed(rules, ts, REDIRECT_SLASH) && Matches(n, ts, url, 0)
      ensures reply.Redirect? ==> reply.location == (if host == [] then url else "http://" + host + url) + "/"
      ensures reply.Handled? ==>
                && FIRST_RULE <= reply.rule < |rules|
                && Matches(n, Path(rules[reply.rule]), url, 0)
                && reply.params == Captures(n, Path(rules[reply.rule]), url, 0)
                && forall r :: FIRST_RULE <= r < reply.rule ==> !Matches(n, Path(rules[r]), url, 0)
    {
      var stack := new ParamStack();
      var found := trie.Find(n, url, 0, 0, stack);
      AnswerOf(trie.nodes, rules, n, url, found);
      if found.rule == 0 {
        return NotFound;
      }
      if found.rule >= |rules| {
        return Corrupted;
      }
      if found.rule == REDIRECT_SLASH {
        var location := WithSlash(host, url);
        return Redirect(location);
      }
      return Handled(found.rule, found.params);
    }
  }

  lemma {:induction false} FreeIsUnstored(rules: seq<Text>, nodes: seq<Node>, ts: seq<Token>)
    requires Arena(nodes) && forall us, r :: Stores(nodes, 0, us, r) <==> Routed(rules, us, r)
    ensures Free(rules, ts) <==> !exists r :: Stores(nodes, 0, ts, r)
  {
    if r :| Routed(rules, ts, r) {
      assert Stores(nodes, 0, ts, r);
    }
  }

  /** Once a directory rule's own path is in, its short path is taken exactly if it was taken before. */
  lemma {:induction false} ShortPathTaken(rules: seq<Text>, rule: Text, before: seq<Node>, after: seq<Node>)
    requires Arena(before) && Arena(after) && WellFormed(rule) && IsDirectory(rule) && WellFormed(WithoutSlash(rule))
    requires forall ts, r :: Stores(before, 0, ts, r) <==> Routed(rules, ts, r)
    requires forall ts, r :: Stores(after, 0, ts, r) <==> Stores(before, 0, ts, r) || (ts == Path(rule) && r == |rules|)
    ensures (exists r :: Stores(after, 0, Path(WithoutSlash(rule)), r)) <==> !Free(rules, Path(WithoutSlash(rule)))
  {
    var short := Path(WithoutSlash(rule));
    SlashIsAToken(rule, 0);
    assert short != Path(rule);
    if r :| Routed(rules, short, r) {
      assert Stores(after, 0, short, r);
    }
  }

  /** Below a simple root every path begins with a literal. */
  lemma {:induction false} SimpleHead(nodes: seq<Node>)
    requires Arena(nodes) && nodes[0].IsSimple()
    ensures forall ts: seq<Token>, r :: Stores(nodes, 0, ts, r) ==> ts != [] && ts[0].Lit?
  {
    assert NodeOk(nodes[0], 0, |nodes|);
    forall ts: seq<Token>, r | Stores(nodes, 0, ts, r) ensures ts != [] && ts[0].Lit? {
      SimpleStores(nodes, 0, ts, r);
      var k :| StoresByKey(nodes, 0, k, ts, r);
      assert ts[0] == Literals(k)[0];
    }
  }

  /** What the search of the trie finds, in terms of the rules. */
  lemma {:induction false} AnswerOf(nodes: seq<Node>, rules: seq<Text>, n: Numbers, url: Text, f: Found)
    requires Arena(nodes) && IsBest(nodes, n, 0, url, 0, EMPTY, f) && |rules| >= FIRST_RULE
    requires forall i :: FIRST_RULE <= i < |rules| ==> WellFormed(rules[i])
    requires forall ts, r :: Stores(nodes, 0, ts, r) <==> Routed(rules, ts, r)
    ensures forall ts, r :: Routed(rules, ts, r) && Matches(n, ts, url, 0) ==> 0 < f.rule <= r
    ensures f.rule != 0 ==> exists ts :: Routed(rules, ts, f.rule) && Matches(n, ts, url, 0)
    ensures f.rule < |rules|
    ensures f.rule >= FIRST_RULE ==>
              Matches(n, Path(rules[f.rule]), url, 0) && f.params == Captures(n, Path(rules[f.rule]), url, 0)
    ensures forall r :: FIRST_RULE <= r < f.rule ==> !Matches(n, Path(rules[r]), url, 0)
  {
    forall ts, r | Routed(rules, ts, r) && Matches(n, ts, url, 0) ensures 0 < f.rule <= r {
      assert Hit(nodes, n, 0, ts, r, url, 0);
    }
    if f.rule != 0 {
      var ts :| Hit(nodes, n, 0, ts, f.rule, url, 0) && f.params == EMPTY.Join(Captures(n, ts, url, 0));
      assert Routed(rules, ts, f.rule) && Matches(n, ts, url, 0);
      JoinAssoc(Captures(n, ts, url, 0), EMPTY, EMPTY);
    }
    forall r | FIRST_RULE <= r < f.rule ensures !Matches(n, Path(rules[r]), url, 0) {
      assert Routed(rules, Path(rules[r]), r);
    }
  }
}
