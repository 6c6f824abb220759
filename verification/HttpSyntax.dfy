/** Character classes, method names and matchers of the HTTP request parser. */
module HttpSyntax {
  import opened Bytes

  const CR: Byte := '\r'
  const LF: Byte := '\n'
  const SPACE: Byte := ' '
  const TAB: Byte := '\t'
  const FORM_FEED: Byte := 12 as char

  /** Sets bit 5, which lowers a letter. */
  function Lower(c: Byte): Byte {
    if (c as int / 32) % 2 == 0 then (c as int + 32) as char else c
  }

  predicate IsAlpha(c: Byte) {
    'a' <= Lower(c) <= 'z'
  }

  predicate IsNameMark(c: Byte) {
    c == '!' || c == '#' || c == '$' || c == '%' || c == '&' || c == '\'' || c == '*' || c == '+' || c == '-' || c == '.'
    || c == '^' || c == '_' || c == '`' || c == '|' || c == '~'
  }

  predicate IsUserinfoMark(c: Byte) {
    c == '-' || c == '_' || c == '.' || c == '!' || c == '~' || c == '*' || c == '\'' || c == '(' || c == ')'
    || c == '%' || c == ';' || c == ':' || c == '&' || c == '=' || c == '+' || c == '$' || c == ','
  }

  /** A header name byte, lowered; `NUL` for any other byte. */
  function Token(c: Byte): Byte {
    if 'A' <= c <= 'Z' then Lower(c)
    else if 'a' <= c <= 'z' || IsDigit(c) || IsNameMark(c) then c
    else NUL
  }

  predicate IsUrlChar(c: Byte) {
    '!' <= c <= '~' && c != '#' && c != '?'
  }

  predicate IsUserinfoChar(c: Byte) {
    IsAlpha(c) || IsDigit(c) || IsUserinfoMark(c)
  }

  /** The value of a chunk size digit; bytes from 0x80 on read as 0. */
  function Unhex(c: Byte): (r: Option<nat>)
    ensures r.Some? ==> r.value < 16
  {
    if '0' <= c <= '9' then Some(c as int - '0' as int)
    else if 'a' <= c <= 'f' then Some(c as int - 'a' as int + 10)
    else if 'A' <= c <= 'F' then Some(c as int - 'A' as int + 10)
    else if c as int >= 128 then Some(0)
    else None
  }

  // ---------------------------------------------------------------- request methods

  datatype Method =
    | DELETE | GET | HEAD | POST | PUT | CONNECT | OPTIONS | TRACE | PATCH | PURGE | COPY | LOCK | MKCOL | MOVE
    | PROPFIND | PROPPATCH | SEARCH | UNLOCK | REPORT | MKACTIVITY | CHECKOUT | MERGE | MSEARCH | NOTIFY | SUBSCRIBE
    | UNSUBSCRIBE | MKCALENDAR

  function MethodName(m: Method): (r: Text)
    ensures 3 <= |r| <= 11
  {
    match m
    case DELETE => "DELETE"
    case GET => "GET"
    case HEAD => "HEAD"
    case POST => "POST"
    case PUT => "PUT"
    case CONNECT => "CONNECT"
    case OPTIONS => "OPTIONS"
    case TRACE => "TRACE"
    case PATCH => "PATCH"
    case PURGE => "PURGE"
    case COPY => "COPY"
    case LOCK => "LOCK"
    case MKCOL => "MKCOL"
    case MOVE => "MOVE"
    case PROPFIND => "PROPFIND"
    case PROPPATCH => "PROPPATCH"
    case SEARCH => "SEARCH"
    case UNLOCK => "UNLOCK"
    case REPORT => "REPORT"
    case MKACTIVITY => "MKACTIVITY"
    case CHECKOUT => "CHECKOUT"
    case MERGE => "MERGE"
    case MSEARCH => "M-SEARCH"
    case NOTIFY => "NOTIFY"
    case SUBSCRIBE => "SUBSCRIBE"
    case UNSUBSCRIBE => "UNSUBSCRIBE"
    case MKCALENDAR => "MKCALENDAR"
  }

  /** The method guessed from its first letter. */
  function FirstGuess(c: Byte): Option<Method> {
    match c
    case 'C' => Some(CONNECT)
    case 'D' => Some(DELETE)
    case 'G' => Some(GET)
    case 'H' => Some(HEAD)
    case 'L' => Some(LOCK)
    case 'M' => Some(MKCOL)
    case 'N' => Some(NOTIFY)
    case 'O' => Some(OPTIONS)
    case 'P' => Some(POST)
    case 'R' => Some(REPORT)
    case 'S' => Some(SUBSCRIBE)
    case 'T' => Some(TRACE)
    case 'U' => Some(UNLOCK)
    case _ => None
  }

  /** The method after one more letter that its guess does not have; none when there is no such method. */
  function NextGuess(m: Method, index: nat, c: Byte): Option<Method> {
    match m
    case CONNECT =>
      if index == 1 && c == 'H' then Some(CHECKOUT) else if index == 2 && c == 'P' then Some(COPY) else None
    case MKCOL =>
      if index == 1 && c == 'O' then Some(MOVE)
      else if index == 1 && c == 'E' then Some(MERGE)
      else if index == 1 && c == '-' then Some(MSEARCH)
      else if index == 2 && c == 'A' then Some(MKACTIVITY)
      else if index == 3 && c == 'A' then Some(MKCALENDAR)
      else None
    case SUBSCRIBE => if index == 1 && c == 'E' then Some(SEARCH) else None
    case POST =>
      if index != 1 then None
      else if c == 'R' then Some(PROPFIND)
      else if c == 'U' then Some(PUT)
      else if c == 'A' then Some(PATCH)
      else None
    case PUT => if index == 2 && c == 'R' then Some(PURGE) else None
    case UNLOCK => if index == 2 && c == 'S' then Some(UNSUBSCRIBE) else None
    case PROPFIND => if index == 4 && c == 'P' then Some(PROPPATCH) else None
    case _ => None
  }

  // ---------------------------------------------------------------- header names and values

  datatype HeaderState =
    | General | HC | HCO | HCON
    | MatchingConnection | MatchingProxyConnection | MatchingContentLength | MatchingTransferEncoding | MatchingUpgrade
    | Connection | ContentLength | TransferEncoding | Upgrade
    | MatchingChunked | MatchingKeepAlive | MatchingClose
    | Chunked | KeepAlive | Close

  function FirstOfName(c: Byte): HeaderState {
    match c
    case 'c' => HC
    case 'p' => MatchingProxyConnection
    case 't' => MatchingTransferEncoding
    case 'u' => MatchingUpgrade
    case _ => General
  }

  /** One byte against `word`: on to `whole` at its last byte, back to `General` where it differs. */
  function MatchWord(word: Text, here: HeaderState, whole: HeaderState, index: nat, c: Byte): (HeaderState, nat) {
    var i := index + 1;
    if i > |word| || c != Peek(word, i) then (General, i)
    else if i == |word| - 1 then (whole, i)
    else (here, i)
  }

  /** The matcher after one more byte of a header name, given raw and as a token. */
  function NextOfName(hs: HeaderState, index: nat, ch: Byte, c: Byte): (HeaderState, nat) {
    match hs
    case General => (General, index)
    case HC => (if c == 'o' then HCO else General, index + 1)
    case HCO => (if c == 'n' then HCON else General, index + 1)
    case HCON =>
      (if c == 'n' then MatchingConnection else if c == 't' then MatchingContentLength else General, index + 1)
    case MatchingConnection => MatchWord("connection", hs, Connection, index, c)
    case MatchingProxyConnection => MatchWord("proxy-connection", hs, Connection, index, c)
    case MatchingContentLength => MatchWord("content-length", hs, ContentLength, index, c)
    case MatchingTransferEncoding => MatchWord("transfer-encoding", hs, TransferEncoding, index, c)
    case MatchingUpgrade => MatchWord("upgrade", hs, Upgrade, index, c)
    case _ => (if ch != SPACE then General else hs, index)
  }

  /** The matcher after one more byte of a header value, other than a length. */
  function NextOfValue(hs: HeaderState, index: nat, ch: Byte): (HeaderState, nat) {
    var c := Lower(ch);
    match hs
    case MatchingChunked => MatchWord("chunked", hs, Chunked, index, c)
    case MatchingKeepAlive => MatchWord("keep-alive", hs, KeepAlive, index, c)
    case MatchingClose => MatchWord("close", hs, Close, index, c)
    case Chunked => (if ch != SPACE then General else hs, index)
    case KeepAlive => (if ch != SPACE then General else hs, index)
    case Close => (if ch != SPACE then General else hs, index)
    case _ => (General, index)
  }
}
