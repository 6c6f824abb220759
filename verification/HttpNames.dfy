/** What the matchers of the request parser recognise: the method names, and the header names that matter. */
module HttpNames {
  import opened Bytes
  import opened HttpSyntax

  // ---------------------------------------------------------------- methods

  /** The guess the parser holds after the first `i` letters of the name of `m`. */
  function Guess(m: Method, i: nat): Method {
    match m
    case CHECKOUT => if i < 2 then CONNECT else m
    case COPY => if i < 3 then CONNECT else m
    case MOVE => if i < 2 then MKCOL else m
    case MERGE => if i < 2 then MKCOL else m
    case MSEARCH => if i < 2 then MKCOL else m
    case MKACTIVITY => if i < 3 then MKCOL else m
    case MKCALENDAR => if i < 4 then MKCOL else m
    case SEARCH => if i < 2 then SUBSCRIBE else m
    case PROPFIND => if i < 2 then POST else m
    case PUT => if i < 2 then POST else m
    case PATCH => if i < 2 then POST else m
    case PURGE => if i < 2 then POST else if i < 3 then PUT else m
    case PROPPATCH => if i < 2 then POST else if i < 5 then PROPFIND else m
    case UNSUBSCRIBE => if i < 3 then UNLOCK else m
    case _ => m
  }

  lemma {:induction false} GuessStart(m: Method)
    ensures IsAlpha(MethodName(m)[0]) && FirstGuess(MethodName(m)[0]) == Some(Guess(m, 1))
  {
  }

  /** The next letter is that of the guess, or leads to the next guess. */
  lemma {:induction false} GuessGoesOn(m: Method, i: nat)
    requires 1 <= i < |MethodName(m)|
    ensures var c := MethodName(m)[i];
            && c != NUL && c != SPACE
            && (if c == Peek(MethodName(Guess(m, i)), i) then Guess(m, i + 1) == Guess(m, i)
                else NextGuess(Guess(m, i), i, c) == Some(Guess(m, i + 1)))
  {
    if i == 1 {
    } else if i == 2 {
    } else if i == 3 {
    } else if i == 4 {
    } else {
      LateGuess(m, i);
    }
  }

  /** From the fifth letter on the guess is right. */
  lemma {:induction false} LateGuess(m: Method, i: nat)
    requires 5 <= i < |MethodName(m)|
    ensures Guess(m, i) == Guess(m, i + 1) == m && MethodName(m)[i] != NUL && MethodName(m)[i] != SPACE
  {
    assert i == 5 || i == 6 || i == 7 || i == 8 || i == 9 || i == 10;
  }

  lemma {:induction false} GuessEnds(m: Method)
    ensures Guess(m, |MethodName(m)|) == m
  {
  }

  // ---------------------------------------------------------------- header names

  predicate IsName(n: Text) {
    n != [] && forall i :: 0 <= i < |n| ==> Token(n[i]) != NUL
  }

  /** A name in lower case. */
  function LowerName(n: Text): (r: Text)
    ensures |r| == |n| && forall i :: 0 <= i < |n| ==> r[i] == Token(n[i])
  {
    seq(|n|, i requires 0 <= i < |n| => Token(n[i]))
  }

  /** The matcher after a whole name. */
  function NameState(n: Text): (HeaderState, nat)
    requires n != []
  {
    var c := n[|n| - 1];
    if |n| == 1 then (FirstOfName(Token(c)), 0)
    else var s := NameState(n[..|n| - 1]); NextOfName(s.0, s.1, c, Token(c))
  }

  const CONNECTION: Text := "connection"
  const PROXY_CONNECTION: Text := "proxy-connection"
  const CONTENT_LENGTH: Text := "content-length"
  const TRANSFER_ENCODING: Text := "transfer-encoding"
  const UPGRADE: Text := "upgrade"

  /** `low` begins `word`, and has `index + 1` letters; the word is not finished. */
  predicate Inside(low: Text, index: nat, word: Text) {
    |low| == index + 1 && low < word
  }

  /** What a state of the matcher says of the letters it has seen. */
  predicate Says(hs: HeaderState, index: nat, low: Text) {
    match hs
    case HC => Inside(low, index, CONNECTION) && |low| == 1
    case HCO => Inside(low, index, CONNECTION) && |low| == 2
    case HCON => Inside(low, index, CONNECTION) && |low| == 3
    case MatchingConnection => Inside(low, index, CONNECTION) && |low| >= 4
    case MatchingContentLength => Inside(low, index, CONTENT_LENGTH) && |low| >= 4
    case MatchingProxyConnection => Inside(low, index, PROXY_CONNECTION)
    case MatchingTransferEncoding => Inside(low, index, TRANSFER_ENCODING)
    case MatchingUpgrade => Inside(low, index, UPGRADE)
    case Connection => low == CONNECTION || low == PROXY_CONNECTION
    case ContentLength => low == CONTENT_LENGTH
    case TransferEncoding => low == TRANSFER_ENCODING
    case Upgrade => low == UPGRADE
    case General => !BeginsSome(low)
    case _ => false
  }

  /** Some name that matters begins with `low`. */
  predicate BeginsSome(low: Text) {
    low <= CONNECTION || low <= PROXY_CONNECTION || low <= CONTENT_LENGTH || low <= TRANSFER_ENCODING || low <= UPGRADE
  }

  /** One letter more of a word: it goes on, it is finished, or it is another word. */
  lemma {:induction false} WordGoesOn(word: Text, low: Text, index: nat, c: Byte, here: HeaderState, whole: HeaderState)
    requires Inside(low, index, word) && c != NUL
    ensures var m := MatchWord(word, here, whole, index, c);
            m == if low + [c] == word then (whole, index + 1)
                 else if low + [c] < word then (here, index + 1)
                 else (General, index + 1)
  {
    assert (low + [c])[..|low|] == low;
    assert (low + [c])[index + 1] == c;
    if c == word[index + 1] {
      assert low + [c] == word[..index + 2];
    }
    if low + [c] == word || low + [c] < word {
      assert word[..|low| + 1] == low + [c];
    }
  }

  /** Words that share no more than their first letters. */
  lemma {:induction false} OnlyOneWord(low: Text)
    requires low != []
    ensures low[0] == 'p' ==> !(low <= CONNECTION) && !(low <= CONTENT_LENGTH) && !(low <= TRANSFER_ENCODING) && !(low <= UPGRADE)
    ensures low[0] == 't' ==> !(low <= CONNECTION) && !(low <= CONTENT_LENGTH) && !(low <= PROXY_CONNECTION) && !(low <= UPGRADE)
    ensures low[0] == 'u' ==> !(low <= CONNECTION) && !(low <= CONTENT_LENGTH) && !(low <= PROXY_CONNECTION) && !(low <= TRANSFER_ENCODING)
    ensures low[0] == 'c' ==> !(low <= PROXY_CONNECTION) && !(low <= TRANSFER_ENCODING) && !(low <= UPGRADE)
    ensures low[0] == 'c' && |low| >= 4 && low[3] == 'n' ==> !(low <= CONTENT_LENGTH)
    ensures low[0] == 'c' && |low| >= 4 && low[3] == 't' ==> !(low <= CONNECTION)
  {
  }

  lemma {:induction false} BeginningShortens(low: Text, c: Byte)
    requires BeginsSome(low + [c])
    ensures BeginsSome(low)
  {
    assert (low + [c])[..|low|] == low;
    if low + [c] <= CONNECTION {
      assert low == CONNECTION[..|low| + 1][..|low|];
    } else if low + [c] <= PROXY_CONNECTION {
      assert low == PROXY_CONNECTION[..|low| + 1][..|low|];
    } else if low + [c] <= CONTENT_LENGTH {
      assert low == CONTENT_LENGTH[..|low| + 1][..|low|];
    } else if low + [c] <= TRANSFER_ENCODING {
      assert low == TRANSFER_ENCODING[..|low| + 1][..|low|];
    } else {
      assert low == UPGRADE[..|low| + 1][..|low|];
    }
  }

  lemma {:induction false} SaysEarly(hs: HeaderState, index: nat, low: Text, ch: Byte)
    requires (hs.HC? || hs.HCO? || hs.HCON?) && Says(hs, index, low) && Token(ch) != NUL
    ensures var m := NextOfName(hs, index, ch, Token(ch)); Says(m.0, m.1, low + [Token(ch)])
  {
    var c := Token(ch);
    var more := low + [c];
    assert more[..|low|] == low;
    assert low == CONNECTION[..|low|] == CONTENT_LENGTH[..|low|];
    OnlyOneWord(more);
    if c == CONNECTION[|low|] {
      assert more == CONNECTION[..|low| + 1];
    }
    if c == CONTENT_LENGTH[|low|] {
      assert more == CONTENT_LENGTH[..|low| + 1];
    }
  }

  lemma {:induction false} SaysMatching(hs: HeaderState, whole: HeaderState, word: Text, index: nat, low: Text, ch: Byte)
    requires Says(hs, index, low) && Token(ch) != NUL && low != []
    requires
      || (hs.MatchingConnection? && whole.Connection? && word == CONNECTION)
      || (hs.MatchingProxyConnection? && whole.Connection? && word == PROXY_CONNECTION)
      || (hs.MatchingContentLength? && whole.ContentLength? && word == CONTENT_LENGTH)
      || (hs.MatchingTransferEncoding? && whole.TransferEncoding? && word == TRANSFER_ENCODING)
      || (hs.MatchingUpgrade? && whole.Upgrade? && word == UPGRADE)
    ensures var m := MatchWord(word, hs, whole, index, Token(ch)); Says(m.0, m.1, low + [Token(ch)])
  {
    var c := Token(ch);
    var more := low + [c];
    WordGoesOn(word, low, index, c, hs, whole);
    assert low[0] == word[0] && more[0] == low[0];
    if |low| >= 4 {
      assert low[3] == word[3] && more[3] == low[3];
    }
    OnlyOneWord(more);
  }

  lemma {:induction false} SaysWhole(hs: HeaderState, index: nat, low: Text, ch: Byte)
    requires (hs.Connection? || hs.ContentLength? || hs.TransferEncoding? || hs.Upgrade?) && Says(hs, index, low) && Token(ch) != NUL
    ensures !BeginsSome(low + [Token(ch)]) && ch != SPACE
  {
    var more := low + [Token(ch)];
    assert more[0] == low[0] && more[3] == low[3];
    OnlyOneWord(more);
  }

  /** The matcher keeps saying the truth, letter by letter. */
  lemma {:induction false} SaysNext(hs: HeaderState, index: nat, low: Text, ch: Byte)
    requires Says(hs, index, low) && Token(ch) != NUL && low != []
    ensures var m := NextOfName(hs, index, ch, Token(ch)); Says(m.0, m.1, low + [Token(ch)])
  {
    match hs
    case HC => SaysEarly(hs, index, low, ch);
    case HCO => SaysEarly(hs, index, low, ch);
    case HCON => SaysEarly(hs, index, low, ch);
    case MatchingConnection => SaysMatching(hs, Connection, CONNECTION, index, low, ch);
    case MatchingProxyConnection => SaysMatching(hs, Connection, PROXY_CONNECTION, index, low, ch);
    case MatchingContentLength => SaysMatching(hs, ContentLength, CONTENT_LENGTH, index, low, ch);
    case MatchingTransferEncoding => SaysMatching(hs, TransferEncoding, TRANSFER_ENCODING, index, low, ch);
    case MatchingUpgrade => SaysMatching(hs, Upgrade, UPGRADE, index, low, ch);
    case General =>
      if BeginsSome(low + [Token(ch)]) {
        BeginningShortens(low, Token(ch));
      }
    case _ => SaysWhole(hs, index, low, ch);
  }

  lemma {:induction false} SaysFirst(c: Byte)
    ensures Says(FirstOfName(c), 0, [c])
  {
    var low := [c];
    assert low <= CONNECTION <==> c == CONNECTION[0];
    assert low <= PROXY_CONNECTION <==> c == PROXY_CONNECTION[0];
    assert low <= CONTENT_LENGTH <==> c == CONTENT_LENGTH[0];
    assert low <= TRANSFER_ENCODING <==> c == TRANSFER_ENCODING[0];
    assert low <= UPGRADE <==> c == UPGRADE[0];
  }

  lemma {:induction false} LowerOneMore(n: Text, c: Byte)
    ensures LowerName(n + [c]) == LowerName(n) + [Token(c)]
  {
  }

  lemma {:induction false} NameOneMore(n: Text, c: Byte)
    requires n != []
    ensures NameState(n + [c]) == NextOfName(NameState(n).0, NameState(n).1, c, Token(c))
  {
    assert (n + [c])[..|n|] == n;
  }

  lemma {:induction false} NameSaysMore(n: Text, c: Byte)
    requires n != [] && Token(c) != NUL && Says(NameState(n).0, NameState(n).1, LowerName(n))
    ensures Says(NameState(n + [c]).0, NameState(n + [c]).1, LowerName(n + [c]))
  {
    var before := NameState(n);
    SaysNext(before.0, before.1, LowerName(n), c);
    LowerOneMore(n, c);
    NameOneMore(n, c);
  }

  lemma {:induction false} NameSaysFirst(c: Byte)
    requires Token(c) != NUL
    ensures Says(NameState([c]).0, NameState([c]).1, LowerName([c]))
  {
    SaysFirst(Token(c));
    assert LowerName([c]) == [Token(c)];
  }

  lemma {:induction false} NameSays(n: Text)
    requires IsName(n)
    ensures Says(NameState(n).0, NameState(n).1, LowerName(n))
    decreases |n|
  {
    var front, c := n[..|n| - 1], n[|n| - 1];
    assert n == front + [c];
    if front == [] {
      NameSaysFirst(c);
    } else {
      NameSays(front);
      NameSaysMore(front, c);
    }
  }

  /** The names that matter are recognised, in any mixture of cases, and no other name is taken for one of them. */
  lemma {:induction false} NamesRecognised(n: Text)
    requires IsName(n)
    ensures NameState(n).0.ContentLength? <==> LowerName(n) == "content-length"
    ensures NameState(n).0.TransferEncoding? <==> LowerName(n) == "transfer-encoding"
    ensures NameState(n).0.Upgrade? <==> LowerName(n) == "upgrade"
    ensures NameState(n).0.Connection? <==> LowerName(n) == "connection" || LowerName(n) == "proxy-connection"
  {
    NameSays(n);
    var low := LowerName(n);
    var hs, index := NameState(n).0, NameState(n).1;
    if low == CONTENT_LENGTH || low == TRANSFER_ENCODING || low == UPGRADE || low == CONNECTION || low == PROXY_CONNECTION {
      assert BeginsSome(low);
      WholeWordsDiffer(hs, index, low);
    }
  }

  /** A whole word is the beginning of no other word. */
  lemma {:induction false} WholeWordsDiffer(hs: HeaderState, index: nat, low: Text)
    requires Says(hs, index, low)
    requires low == CONTENT_LENGTH || low == TRANSFER_ENCODING || low == UPGRADE || low == CONNECTION || low == PROXY_CONNECTION
    ensures hs.Connection? || hs.ContentLength? || hs.TransferEncoding? || hs.Upgrade?
  {
    OnlyOneWord(low);
    assert BeginsSome(low);
  }
}
