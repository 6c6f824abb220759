/**
 * The iterative parser of the JSON reader: a prediction table over lookahead tokens and an explicit stack of words.
 * Main result: from every configuration the machine can reach, it ends exactly as the recursive parser does.
 */
module JsonMachine {
  import opened Bytes
  import opened JsonLexer
  import opened JsonGrammar

  datatype State =
    | Finish | Error | Start
    | ObjectInitial | MemberKey | MemberValue | ObjectFinish
    | ArrayInitial | Element | ArrayFinish
    | SingleValue
    | ElementDelimiter | MemberDelimiter | KeyValueDelimiter

  datatype Token =
    | LeftBracket | RightBracket | LeftCurlyBracket | RightCurlyBracket | Comma | Colon
    | StringToken | FalseToken | TrueToken | NullToken | NumberToken

  function Tokenize(c: Byte): Token {
    match c
    case '"' => StringToken
    case ',' => Comma
    case ':' => Colon
    case '[' => LeftBracket
    case ']' => RightBracket
    case 'f' => FalseToken
    case 'n' => NullToken
    case 't' => TrueToken
    case '{' => LeftCurlyBracket
    case '}' => RightCurlyBracket
    case _ => NumberToken
  }

  predicate IsScalar(t: Token) {
    t.StringToken? || t.FalseToken? || t.TrueToken? || t.NullToken? || t.NumberToken?
  }

  /** The prediction table: current state and lookahead token to the state to move to. */
  function Predict(state: State, t: Token): State {
    match state
    case Finish | Error | ObjectFinish | ArrayFinish | SingleValue => Error
    case Start =>
      if t.LeftBracket? then ArrayInitial
      else if t.LeftCurlyBracket? then ObjectInitial
      else if IsScalar(t) then SingleValue else Error
    case ObjectInitial | MemberDelimiter =>
      if t.RightCurlyBracket? then ObjectFinish
      else if t.StringToken? then MemberKey else Error
    case MemberKey => if t.Colon? then KeyValueDelimiter else Error
    case MemberValue =>
      if t.RightCurlyBracket? then ObjectFinish
      else if t.Comma? then MemberDelimiter else Error
    case ArrayInitial | ElementDelimiter =>
      if t.LeftBracket? then ArrayInitial
      else if t.RightBracket? then ArrayFinish
      else if t.LeftCurlyBracket? then ObjectInitial
      else if IsScalar(t) then Element else Error
    case Element =>
      if t.RightBracket? then ArrayFinish
      else if t.Comma? then ElementDelimiter else Error
    case KeyValueDelimiter =>
      if t.LeftBracket? then ArrayInitial
      else if t.LeftCurlyBracket? then ObjectInitial
      else if IsScalar(t) then MemberValue else Error
  }

  // ---------------------------------------------------------------- the stack

  /** The parser's stack holds untyped words; a frame is a return state with a count above it. */
  datatype StackWord = StateWord(state: State) | CountWord(count: nat)

  /** The kind of an open bracket. The parser never stores it. */
  datatype Bracket = Square | Curly

  /** The state a value completed inside these open brackets returns to. */
  function ReturnState(open: seq<Bracket>): State {
    if open == [] then Start else if open[|open| - 1] == Square then Element else MemberValue
  }

  /** The stack holds one frame per open bracket, with Start at the bottom. */
  ghost predicate Frames(stack: seq<StackWord>, open: seq<Bracket>)
    decreases |open|
  {
    if open == [] then stack == []
    else
      && |stack| >= 2
      && stack[|stack| - 1].CountWord?
      && stack[|stack| - 2] == StateWord(ReturnState(open[..|open| - 1]))
      && Frames(stack[..|stack| - 2], open[..|open| - 1])
  }

  predicate InArray(state: State) {
    state.ArrayInitial? || state.Element? || state.ElementDelimiter?
  }

  predicate InObject(state: State) {
    || state.ObjectInitial? || state.MemberKey? || state.MemberValue?
    || state.MemberDelimiter? || state.KeyValueDelimiter?
  }

  /** What holds whenever the machine looks at a token: the state tells the kind of the innermost open bracket. */
  ghost predicate Reachable(state: State, stack: seq<StackWord>, open: seq<Bracket>) {
    && Frames(stack, open)
    && (state.Start? || state.Finish? || InArray(state) || InObject(state))
    && (open == [] <==> state.Start? || state.Finish?)
    && (InArray(state) ==> open[|open| - 1] == Square)
    && (InObject(state) ==> open[|open| - 1] == Curly)
    && (state.ArrayInitial? || state.ObjectInitial? ==> stack[|stack| - 1] == CountWord(0))
  }

  /** The brackets open after a transition that was predicted to `dst`. */
  ghost function OpenAfter(open: seq<Bracket>, dst: State): seq<Bracket>
    requires dst.ObjectFinish? || dst.ArrayFinish? ==> open != []
  {
    match dst
    case ArrayInitial => open + [Square]
    case ObjectInitial => open + [Curly]
    case ArrayFinish | ObjectFinish => open[..|open| - 1]
    case _ => open
  }

  // ---------------------------------------------------------------- transitions

  datatype Outcome = Outcome(state: State, stack: seq<StackWord>, g: Progress)

  /** The stack has what the transition to `dst` pops or updates. */
  predicate StackFits(dst: State, stack: seq<StackWord>) {
    match dst
    case ObjectFinish | ArrayFinish =>
      |stack| >= 2 && stack[|stack| - 1].CountWord? && stack[|stack| - 2].StateWord?
    case MemberDelimiter | ElementDelimiter => |stack| >= 1 && stack[|stack| - 1].CountWord?
    case _ => true
  }

  /** The state pushed when a bracket opens in `src`. */
  function PushedState(src: State): State {
    if src.ArrayInitial? || src.ElementDelimiter? then Element
    else if src.KeyValueDelimiter? then MemberValue
    else src
  }

  function OpenBracket(dst: State, src: State, stack: seq<StackWord>, g: Progress): Outcome
    requires g.Going?
  {
    Outcome(dst, stack + [StateWord(PushedState(src)), CountWord(0)],
            g.Emit(if dst.ObjectInitial? then StartObject else StartArray).Step(1))
  }

  function CloseBracket(f: Settings, dst: State, src: State, stack: seq<StackWord>, g: Progress): Outcome
    requires g.Going? && (dst.ObjectFinish? || dst.ArrayFinish?) && StackFits(dst, stack)
  {
    var delimiter := if dst.ObjectFinish? then MemberDelimiter else ElementDelimiter;
    var last := if dst.ObjectFinish? then MemberValue else Element;
    if !f.trailingCommas && src == delimiter then
      Outcome(Error, stack, g.Fail(if dst.ObjectFinish? then ObjectMissName else ValueInvalid))
    else
      var c := stack[|stack| - 1].count + (if src == last then 1 else 0);
      var n := stack[|stack| - 2].state;
      Outcome(if n.Start? then Finish else n, stack[..|stack| - 2],
              g.Emit(if dst.ObjectFinish? then EndObject(c) else EndArray(c)).Step(1))
  }

  function Scanned(dst: State, stack: seq<StackWord>, g: Progress): Outcome {
    Outcome(if g.Failed? then Error else dst, stack, g)
  }

  /** One transition of the machine from `src` towards the predicted state `dst`. */
  function Transit(s: Text, f: Settings, src: State, dst: State, stack: seq<StackWord>, g: Progress): (r: Outcome)
    requires g.At(s) && Peek(s, g.pos) != NUL
    requires dst == Predict(src, Tokenize(Peek(s, g.pos))) && StackFits(dst, stack)
    ensures r.state.Error? || r.g.Beyond(g.pos, s)
  {
    match dst
    case Error => Outcome(Error, stack, g)
    case ObjectInitial | ArrayInitial => OpenBracket(dst, src, stack, g)
    case MemberKey => Scanned(dst, stack, Str(s, true, g))
    case KeyValueDelimiter => Outcome(dst, stack, g.Step(1))
    case MemberValue | Element => Scanned(dst, stack, Value(s, f, g))
    case MemberDelimiter | ElementDelimiter =>
      Outcome(dst, stack[|stack| - 1 := CountWord(stack[|stack| - 1].count + 1)], g.Step(1))
    case ObjectFinish | ArrayFinish => CloseBracket(f, dst, src, stack, g)
    case SingleValue => Scanned(Finish, stack, Value(s, f, g))
  }

  /** The error a state stands for when no transition, or no token, is left. */
  function HandleError(src: State, g: Progress): Progress
    requires !src.Error? && !src.ObjectFinish? && !src.ArrayFinish? && !src.SingleValue?
  {
    if g.Failed? then g
    else
      match src
      case Start => g.Fail(DocumentEmpty)
      case Finish => g.Fail(DocumentRootNotSingular)
      case ObjectInitial | MemberDelimiter => g.Fail(ObjectMissName)
      case MemberKey => g.Fail(ObjectMissColon)
      case MemberValue => g.Fail(ObjectMissCommaOrCurlyBracket)
      case KeyValueDelimiter | ArrayInitial | ElementDelimiter => g.Fail(ValueInvalid)
      case Element => g.Fail(ArrayMissCommaOrSquareBracket)
  }

  /** In every reachable configuration the word popped is the word pushed for it, and none is missing. */
  lemma {:induction false} StackAlwaysFits(state: State, stack: seq<StackWord>, open: seq<Bracket>, t: Token)
    requires Reachable(state, stack, open)
    ensures StackFits(Predict(state, t), stack)
    ensures Predict(state, t).ArrayFinish? ==> open != [] && open[|open| - 1] == Square
    ensures Predict(state, t).ObjectFinish? ==> open != [] && open[|open| - 1] == Curly
  {
  }

  /** A frame pushed with the state that encloses it. */
  lemma {:induction false} PushKeepsFrames(stack: seq<StackWord>, open: seq<Bracket>, b: Bracket, c: nat)
    requires Frames(stack, open)
    ensures Frames(stack + [StateWord(ReturnState(open)), CountWord(c)], open + [b])
  {
    var pushed := stack + [StateWord(ReturnState(open)), CountWord(c)];
    var after := open + [b];
    assert pushed[..|pushed| - 2] == stack && after[..|after| - 1] == open;
  }

  lemma {:induction false} OpeningKeepsReachable(src: State, t: Token, dst: State, stack: seq<StackWord>, open: seq<Bracket>)
    requires Reachable(src, stack, open) && dst == Predict(src, t) && (dst.ArrayInitial? || dst.ObjectInitial?)
    ensures Reachable(dst, stack + [StateWord(PushedState(src)), CountWord(0)], OpenAfter(open, dst))
  {
    ReturnsAsPushed(src, t, dst, stack, open);
    PushKeepsFrames(stack, open, if dst.ArrayInitial? then Square else Curly, 0);
  }

  /** The state pushed under a new frame is the one that a value completed inside the open brackets returns to. */
  lemma {:induction false} ReturnsAsPushed(src: State, t: Token, dst: State, stack: seq<StackWord>, open: seq<Bracket>)
    requires Reachable(src, stack, open) && dst == Predict(src, t) && (dst.ArrayInitial? || dst.ObjectInitial?)
    ensures PushedState(src) == ReturnState(open)
  {
  }

  lemma {:induction false} CountingKeepsReachable(src: State, dst: State, stack: seq<StackWord>, open: seq<Bracket>, c: nat)
    requires Reachable(src, stack, open)
    requires (src.Element? && dst.ElementDelimiter?) || (src.MemberValue? && dst.MemberDelimiter?)
    ensures Reachable(dst, stack[|stack| - 1 := CountWord(c)], open)
  {
    assert stack[|stack| - 1 := CountWord(c)][..|stack| - 2] == stack[..|stack| - 2];
  }

  lemma {:induction false} ClosingKeepsReachable(f: Settings, src: State, dst: State, stack: seq<StackWord>, open: seq<Bracket>, g: Progress)
    requires Reachable(src, stack, open) && open != [] && g.Going?
    requires (dst.ArrayFinish? || dst.ObjectFinish?) && StackFits(dst, stack)
    ensures var r := CloseBracket(f, dst, src, stack, g);
            !r.state.Error? ==> Reachable(r.state, r.stack, OpenAfter(open, dst))
  {
  }

  /** Every transition that does not end the parse leads to a reachable configuration. */
  lemma {:induction false} TransitKeepsReachable(s: Text, f: Settings, src: State, stack: seq<StackWord>, open: seq<Bracket>, g: Progress)
    requires g.At(s) && Peek(s, g.pos) != NUL && Reachable(src, stack, open)
    requires var dst := Predict(src, Tokenize(Peek(s, g.pos))); StackFits(dst, stack)
    ensures var dst := Predict(src, Tokenize(Peek(s, g.pos)));
            var r := Transit(s, f, src, dst, stack, g);
            && (dst.ArrayFinish? || dst.ObjectFinish? ==> open != [])
            && (!r.state.Error? ==> Reachable(r.state, r.stack, OpenAfter(open, dst)))
  {
    var dst := Predict(src, Tokenize(Peek(s, g.pos)));
    match dst {
      case ArrayInitial | ObjectInitial =>
        OpeningKeepsReachable(src, Tokenize(Peek(s, g.pos)), dst, stack, open);
      case MemberDelimiter | ElementDelimiter =>
        CountingKeepsReachable(src, dst, stack, open, stack[|stack| - 1].count + 1);
      case ArrayFinish | ObjectFinish =>
        ClosingKeepsReachable(f, src, dst, stack, open, g);
      case _ =>
    }
  }
}
