/** The request targets the parser takes, as a grammar: its url automaton accepts exactly these. */
module HttpUrl {
  import opened Bytes
  import opened HttpSyntax
  import opened HttpMachine

  // ---------------------------------------------------------------- the grammar

  /** A visible byte other than `#` and `?`. */
  predicate PathByte(c: Byte) {
    var n := c as int;
    0x21 <= n <= 0x22 || 0x24 <= n <= 0x3E || 0x40 <= n <= 0x7E
  }

  predicate Letter(c: Byte) {
    'A' <= c <= 'Z' || 'a' <= c <= 'z'
  }

  /** A byte of a server's name, its port or user information, or of an address in brackets. */
  predicate ServerByte(c: Byte) {
    Letter(c) || '0' <= c <= '9' || c in "-_.!~*'();:&=+$,%[]"
  }

  predicate InPath(t: Text) {
    forall i :: 0 <= i < |t| ==> PathByte(t[i])
  }

  predicate InQuery(t: Text) {
    forall i :: 0 <= i < |t| ==> PathByte(t[i]) || t[i] == '?'
  }

  predicate InFragment(t: Text) {
    forall i :: 0 <= i < |t| ==> PathByte(t[i]) || t[i] == '?' || t[i] == '#'
  }

  predicate InScheme(t: Text) {
    forall i :: 0 <= i < |t| ==> Letter(t[i])
  }

  /** No two at signs in a row. */
  predicate InServer(t: Text) {
    && (forall i :: 0 <= i < |t| ==> ServerByte(t[i]) || t[i] == '@')
    && (forall i :: 0 < i < |t| ==> !(t[i - 1] == '@' && t[i] == '@'))
  }

  datatype Authority = Authority(scheme: Text, server: Text)

  /** A request target: a path, or a server with what it is asked for; a query; a fragment. */
  datatype Target = Target(authority: Option<Authority>, path: Text, query: Option<Text>, fragment: Option<Text>)
  {
    predicate Fits() {
      && InPath(path) && (query.Some? ==> InQuery(query.value)) && (fragment.Some? ==> InFragment(fragment.value))
      && match authority
         case None => path != [] && (path[0] == '/' || path[0] == '*')
         case Some(a) =>
           && a.scheme != [] && InScheme(a.scheme) && InServer(a.server) && (path != [] ==> path[0] == '/')
           && (a.server == [] ==> path != [] || query.Some?)
           && (path == [] && query.None? ==> fragment.None?)
    }

    function Front(): Text {
      (match authority case None => [] case Some(a) => a.scheme + "://" + a.server) + path
    }

    function Middle(): Text {
      Front() + (match query case None => [] case Some(q) => ['?'] + q)
    }

    function Text(): Text {
      Middle() + (match fragment case None => [] case Some(f) => ['#'] + f)
    }
  }

  /** A url that the parser takes. */
  ghost predicate IsUrl(u: Text) {
    exists t: Target :: t.Fits() && t.Text() == u
  }

  // ---------------------------------------------------------------- the automaton

  /** The url automaton after a text. */
  function UrlState(u: Text): State {
    if u == [] then SpacesBeforeUrl else NextInUrl(UrlState(u[..|u| - 1]), u[|u| - 1])
  }

  /** The automaton takes the whole url, and it does not stop before the server's name. */
  predicate Accepts(u: Text) {
    var s := UrlState(u);
    s.InUrl() && !s.Schema? && !s.SchemaSlash? && !s.SchemaSlashSlash? && !s.ServerStart?
  }

  lemma {:induction false} UrlStateMore(u: Text, c: Byte)
    ensures UrlState(u + [c]) == NextInUrl(UrlState(u), c)
  {
    assert (u + [c])[..|u|] == u;
  }

  lemma {:induction false} UrlStateInUrl(s: State, ch: Byte)
    ensures NextInUrl(s, ch) == Dead || NextInUrl(s, ch).InUrl()
    ensures NextInUrl(Dead, ch) == Dead
  {
  }

  // ---------------------------------------------------------------- from the grammar to the automaton

  lemma {:induction false} BytesAlike(c: Byte)
    ensures PathByte(c) <==> IsUrlChar(c)
    ensures Letter(c) ==> IsAlpha(c)
    ensures ServerByte(c) <==> IsUserinfoChar(c) || c == '[' || c == ']'
  {
  }

  lemma {:induction false} LastStep(u: Text, w: Text)
    requires w != []
    ensures UrlState(u + w) == NextInUrl(UrlState(u + w[..|w| - 1]), w[|w| - 1])
  {
    assert (u + w)[..|u + w| - 1] == u + w[..|w| - 1];
  }

  lemma {:induction false} PathStays(u: Text, w: Text)
    requires UrlState(u) == Path && InPath(w)
    ensures UrlState(u + w) == Path
    decreases |w|
  {
    if w == [] {
      assert u + w == u;
    } else {
      LastStep(u, w);
      PathStays(u, w[..|w| - 1]);
      BytesAlike(w[|w| - 1]);
    }
  }

  lemma {:induction false} QueryStays(u: Text, w: Text)
    requires UrlState(u) == QueryStart && InQuery(w)
    ensures UrlState(u + w) == if w == [] then QueryStart else Query
    decreases |w|
  {
    if w == [] {
      assert u + w == u;
    } else {
      LastStep(u, w);
      QueryStays(u, w[..|w| - 1]);
      BytesAlike(w[|w| - 1]);
    }
  }

  lemma {:induction false} FragmentStays(u: Text, w: Text)
    requires UrlState(u) == FragmentStart && InFragment(w)
    ensures UrlState(u + w) == FragmentStart || UrlState(u + w) == Fragment
    decreases |w|
  {
    if w == [] {
      assert u + w == u;
    } else {
      LastStep(u, w);
      FragmentStays(u, w[..|w| - 1]);
      BytesAlike(w[|w| - 1]);
    }
  }

  lemma {:induction false} SchemeStays(w: Text)
    requires w != [] && InScheme(w)
    ensures UrlState(w) == Schema
    decreases |w|
  {
    BytesAlike(w[|w| - 1]);
    if |w| > 1 {
      SchemeStays(w[..|w| - 1]);
    } else {
      assert UrlState(w[..0]) == SpacesBeforeUrl;
    }
  }

  lemma {:induction false} SchemeThenServer(w: Text)
    requires w != [] && InScheme(w)
    ensures UrlState(w + "://") == ServerStart
  {
    SchemeStays(w);
    UrlStateMore(w, ':');
    UrlStateMore(w + [':'], '/');
    UrlStateMore(w + [':'] + ['/'], '/');
    assert w + "://" == w + [':'] + ['/'] + ['/'];
  }

  /** Where the automaton is behind some bytes of a server. */
  function ServerState(w: Text): State {
    if w == [] then ServerStart else if w[|w| - 1] == '@' then ServerWithAt else Server
  }

  lemma {:induction false} ServerStays(u: Text, w: Text)
    requires UrlState(u) == ServerStart && InServer(w)
    ensures UrlState(u + w) == ServerState(w)
    decreases |w|
  {
    if w == [] {
      assert u + w == u;
    } else {
      LastStep(u, w);
      ServerFront(w);
      ServerStays(u, w[..|w| - 1]);
      ServerStep(ServerState(w[..|w| - 1]), w[|w| - 1]);
    }
  }

  /** The last byte of a server, and what is before it. */
  lemma {:induction false} ServerFront(w: Text)
    requires w != [] && InServer(w)
    ensures InServer(w[..|w| - 1]) && (ServerByte(w[|w| - 1]) || w[|w| - 1] == '@')
    ensures ServerState(w[..|w| - 1]).ServerWithAt? ==> w[|w| - 1] != '@'
  {
    if |w| > 1 {
      assert !(w[|w| - 1 - 1] == '@' && w[|w| - 1] == '@');
    }
  }

  lemma {:induction false} ServerStep(s: State, c: Byte)
    requires s.ServerStart? || s.Server? || (s.ServerWithAt? && c != '@')
    requires ServerByte(c) || c == '@'
    ensures NextInUrl(s, c) == if c == '@' then ServerWithAt else Server
  {
    BytesAlike(c);
  }

  /** The state behind the path, or behind the server if there is none. */
  lemma {:induction false} FrontRuns(t: Target)
    requires t.Fits()
    ensures UrlState(t.Front()) == if t.path != [] then Path else ServerState(t.authority.value.server)
  {
    var path := t.path;
    match t.authority {
      case None =>
        assert t.Front() == [] + path;
        FirstOfPath([], path);
      case Some(a) =>
        var u := a.scheme + "://" + a.server;
        SchemeThenServer(a.scheme);
        ServerStays(a.scheme + "://", a.server);
        if path == [] {
          assert t.Front() == u;
        } else {
          FirstOfPath(u, path);
        }
    }
  }

  lemma {:induction false} PathBegins(s: State, c: Byte)
    requires s.SpacesBeforeUrl? || s.ServerStart? || s.Server? || s.ServerWithAt?
    requires c == '/' || (s.SpacesBeforeUrl? && c == '*')
    ensures NextInUrl(s, c) == Path
  {
  }

  lemma {:induction false} FirstOfPath(u: Text, path: Text)
    requires path != [] && InPath(path) && (path[0] == '/' || (u == [] && path[0] == '*'))
    requires u == [] || UrlState(u).ServerStart? || UrlState(u).Server? || UrlState(u).ServerWithAt?
    ensures UrlState(u + path) == Path
  {
    PathBegins(UrlState(u), path[0]);
    UrlStateMore(u, path[0]);
    PathStays(u + [path[0]], path[1..]);
    assert u + [path[0]] + path[1..] == u + path;
  }

  /** The state behind a query, or where there is none, behind what was before it. */
  function QueryState(front: State, q: Option<Text>): State {
    match q
    case None => front
    case Some(w) => if w == [] then QueryStart else Query
  }

  lemma {:induction false} MiddleRuns(u: Text, q: Option<Text>)
    requires UrlState(u).Path? || UrlState(u).ServerStart? || UrlState(u).Server? || UrlState(u).ServerWithAt?
    requires q.Some? ==> InQuery(q.value)
    ensures UrlState(u + (match q case None => [] case Some(w) => ['?'] + w)) == QueryState(UrlState(u), q)
  {
    match q {
      case None => assert u + [] == u;
      case Some(w) =>
        UrlStateMore(u, '?');
        QueryStays(u + ['?'], w);
        assert u + ['?'] + w == u + (['?'] + w);
    }
  }

  lemma {:induction false} EndRuns(u: Text, f: Option<Text>)
    requires UrlState(u).Path? || UrlState(u).QueryStart? || UrlState(u).Query? || f.None?
    requires f.Some? ==> InFragment(f.value)
    ensures var s := UrlState(u + (match f case None => [] case Some(w) => ['#'] + w));
            if f.None? then s == UrlState(u) else s.FragmentStart? || s.Fragment?
  {
    match f {
      case None => assert u + [] == u;
      case Some(w) =>
        UrlStateMore(u, '#');
        FragmentStays(u + ['#'], w);
        assert u + ['#'] + w == u + (['#'] + w);
    }
  }

  lemma {:induction false} TargetAccepted(t: Target)
    requires t.Fits()
    ensures Accepts(t.Text())
  {
    FrontRuns(t);
    MiddleRuns(t.Front(), t.query);
    EndRuns(t.Middle(), t.fragment);
  }

  // ---------------------------------------------------------------- from the automaton to the grammar

  /** What has been read of a target, by the state of the automaton. */
  ghost predicate ReadAs(u: Text, s: State, t: Target) {
    match s
    case Schema => u != [] && InScheme(u)
    case SchemaSlash => |u| > 1 && InScheme(u[..|u| - 1]) && u[|u| - 1] == ':'
    case SchemaSlashSlash => |u| > 2 && InScheme(u[..|u| - 2]) && u[|u| - 2..] == ":/"
    case ServerStart => |u| > 3 && InScheme(u[..|u| - 3]) && u[|u| - 3..] == "://"
    case Server | ServerWithAt =>
      t.Fits() && t.Text() == u && t.path == [] && t.query.None? && t.fragment.None? && ServerState(t.authority.value.server) == s
    case Path => t.Fits() && t.Text() == u && t.path != [] && t.query.None? && t.fragment.None?
    case QueryStart | Query => t.Fits() && t.Text() == u && t.query.Some? && t.fragment.None?
    case FragmentStart | Fragment => t.Fits() && t.Text() == u && t.fragment.Some?
    case _ => false
  }

  const NO_TARGET := Target(None, [], None, None)

  /** The first byte of a target. */
  lemma {:induction false} ReadFirst(c: Byte) returns (t: Target)
    requires NextInUrl(SpacesBeforeUrl, c) != Dead
    ensures ReadAs([c], NextInUrl(SpacesBeforeUrl, c), t)
  {
    t := if c == '/' || c == '*' then Target(None, [c], None, None) else NO_TARGET;
    assert [] + [c] == [c] && [c] + [] == [c];
  }

  /** A byte more of the scheme, up to the server. */
  lemma {:induction false} ReadScheme(u: Text, s: State, c: Byte, t: Target)
    requires ReadAs(u, s, t) && (s.Schema? || s.SchemaSlash? || s.SchemaSlashSlash?) && NextInUrl(s, c) != Dead
    ensures ReadAs(u + [c], NextInUrl(s, c), t)
  {
    BytesAlike(c);
    var w := u + [c];
    match s
    case Schema => assert w[..|w| - 1] == u;
    case SchemaSlash =>
      assert w[..|w| - 2] == u[..|u| - 1] && w[|w| - 2..] == [':', '/'];
    case SchemaSlashSlash =>
      assert w[..|w| - 3] == u[..|u| - 2] && w[|w| - 3..] == u[|u| - 2..] + ['/'];
  }

  /** A byte behind the scheme's slashes: the server begins, or what is asked of it. */
  lemma {:induction false} ReadServerStart(u: Text, c: Byte, t: Target) returns (k: Target)
    requires ReadAs(u, ServerStart, t) && NextInUrl(ServerStart, c) != Dead
    ensures ReadAs(u + [c], NextInUrl(ServerStart, c), k)
  {
    BytesAlike(c);
    var scheme := u[..|u| - 3];
    assert u == scheme + "://";
    if c == '/' {
      k := Target(Some(Authority(scheme, [])), [c], None, None);
    } else if c == '?' {
      k := Target(Some(Authority(scheme, [])), [], Some([]), None);
    } else {
      k := Target(Some(Authority(scheme, [c])), [], None, None);
    }
    TextOf(k, u, c);
  }

  lemma {:induction false} TextOf(k: Target, u: Text, c: Byte)
    requires k.authority.Some? && u == k.authority.value.scheme + "://" && k.fragment.None?
    requires || (k.authority.value.server == [] && k.path == [c] && k.query.None?)
             || (k.authority.value.server == [] && k.path == [] && k.query == Some([]) && c == '?')
             || (k.authority.value.server == [c] && k.path == [] && k.query.None?)
    ensures k.Text() == u + [c]
  {
  }

  /** A byte more of the server, or the first behind it. */
  lemma {:induction false} ReadServer(u: Text, s: State, c: Byte, t: Target) returns (k: Target)
    requires ReadAs(u, s, t) && (s.Server? || s.ServerWithAt?) && NextInUrl(s, c) != Dead
    ensures ReadAs(u + [c], NextInUrl(s, c), k)
  {
    BytesAlike(c);
    if c == '/' {
      k := t.(path := [c]);
    } else if c == '?' {
      k := t.(query := Some([]));
    } else {
      k := t.(authority := Some(t.authority.value.(server := t.authority.value.server + [c])));
      MoreInServer(t.authority.value.server, c);
    }
    MoreServer(t, k, c);
  }

  lemma {:induction false} MoreInServer(server: Text, c: Byte)
    requires InServer(server) && (ServerByte(c) || c == '@') && (ServerState(server).ServerWithAt? ==> c != '@')
    ensures InServer(server + [c]) && ServerState(server + [c]) == if c == '@' then ServerWithAt else Server
  {
  }

  lemma {:induction false} MoreServer(t: Target, k: Target, c: Byte)
    requires t.Fits() && t.authority.Some? && t.path == [] && t.query.None? && t.fragment.None?
    requires k == (if c == '/' then t.(path := [c]) else if c == '?' then t.(query := Some([]))
                   else t.(authority := Some(t.authority.value.(server := t.authority.value.server + [c]))))
    ensures k.Text() == t.Text() + [c]
  {
    var a := t.authority.value;
    assert a.scheme + "://" + (a.server + [c]) == a.scheme + "://" + a.server + [c];
  }

  /** A byte more of the path, or the first behind it. */
  lemma {:induction false} ReadPath(u: Text, c: Byte, t: Target) returns (k: Target)
    requires ReadAs(u, Path, t) && NextInUrl(Path, c) != Dead
    ensures ReadAs(u + [c], NextInUrl(Path, c), k)
  {
    BytesAlike(c);
    if c == '?' {
      k := t.(query := Some([]));
    } else if c == '#' {
      k := t.(fragment := Some([]));
    } else {
      k := t.(path := t.path + [c]);
      assert t.Front() + [c] == k.Front();
    }
    assert t.Text() == t.Front() && k.Text() == t.Front() + [c];
  }

  /** A byte more of the query, or the one that begins the fragment. */
  lemma {:induction false} ReadQuery(u: Text, s: State, c: Byte, t: Target) returns (k: Target)
    requires ReadAs(u, s, t) && (s.QueryStart? || s.Query?) && NextInUrl(s, c) != Dead
    ensures ReadAs(u + [c], NextInUrl(s, c), k)
  {
    BytesAlike(c);
    if c == '#' {
      k := t.(fragment := Some([]));
    } else {
      k := t.(query := Some(t.query.value + [c]));
      assert t.Middle() + [c] == k.Middle();
    }
    assert t.Text() == t.Middle() && k.Text() == t.Middle() + [c];
  }

  lemma {:induction false} ReadFragment(u: Text, s: State, c: Byte, t: Target) returns (k: Target)
    requires ReadAs(u, s, t) && (s.FragmentStart? || s.Fragment?) && NextInUrl(s, c) != Dead
    ensures ReadAs(u + [c], NextInUrl(s, c), k)
  {
    BytesAlike(c);
    k := t.(fragment := Some(t.fragment.value + [c]));
    assert k.Text() == t.Text() + [c];
  }

  /** What the automaton has taken is a beginning of a target. */
  lemma {:induction false} ReadOn(u: Text) returns (t: Target)
    requires u != [] && UrlState(u) != Dead
    ensures ReadAs(u, UrlState(u), t)
    decreases |u|
  {
    var front, c := u[..|u| - 1], u[|u| - 1];
    assert u == front + [c];
    if front == [] {
      t := ReadFirst(c);
    } else {
      UrlStateInUrl(UrlState(front), c);
      var before := ReadOn(front);
      t := ReadNext(front, UrlState(front), c, before);
    }
  }

  lemma {:induction false} ReadNext(u: Text, s: State, c: Byte, t: Target) returns (k: Target)
    requires ReadAs(u, s, t) && NextInUrl(s, c) != Dead
    ensures ReadAs(u + [c], NextInUrl(s, c), k)
  {
    match s
    case Schema | SchemaSlash | SchemaSlashSlash =>
      ReadScheme(u, s, c, t);
      k := t;
    case ServerStart => k := ReadServerStart(u, c, t);
    case Server | ServerWithAt => k := ReadServer(u, s, c, t);
    case Path => k := ReadPath(u, c, t);
    case QueryStart | Query => k := ReadQuery(u, s, c, t);
    case FragmentStart | Fragment => k := ReadFragment(u, s, c, t);
  }

  /** The automaton accepts exactly the targets of the grammar. */
  lemma {:induction false} UrlAccepted(u: Text)
    ensures Accepts(u) <==> IsUrl(u)
  {
    if Accepts(u) {
      var t := ReadOn(u);
      assert t.Fits() && t.Text() == u;
    }
    if t: Target :| t.Fits() && t.Text() == u {
      TargetAccepted(t);
    }
  }
}
