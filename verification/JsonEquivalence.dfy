/** The two JSON parsers agree: the stack machine resumes, at every token, exactly what the recursive descent had left to do. */
module JsonEquivalence {
  import opened Bytes
  import opened JsonLexer
  import opened JsonGrammar
  import opened JsonMachine

  /** The iterative parser's loop, from a token boundary on. */
  ghost function Run(s: Text, f: Settings, state: State, stack: seq<StackWord>, open: seq<Bracket>, g: Progress): (r: Progress)
    requires g.At(s) && Reachable(state, stack, open)
    decreases |s| - g.pos
  {
    if Peek(s, g.pos) == NUL then
      if state.Finish? then g else HandleError(state, g)
    else
      var dst := Predict(state, Tokenize(Peek(s, g.pos)));
      StackAlwaysFits(state, stack, open, Tokenize(Peek(s, g.pos)));
      TransitKeepsReachable(s, f, state, stack, open, g);
      var r := Transit(s, f, state, dst, stack, g);
      if r.state.Error? then HandleError(state, r.g)
      else Continue(s, f, r, OpenAfter(open, dst), g.pos)
  }

  /** The end of one turn of the loop, once the transition has moved past `from`. */
  ghost function Continue(s: Text, f: Settings, r: Outcome, open: seq<Bracket>, from: nat): Progress
    requires r.g.At(s) && from < r.g.pos && Reachable(r.state, r.stack, open)
    decreases |s| - from, 0
  {
    if f.stopWhenDone && r.state.Finish? then r.g
    else
      var h := Space(s, f, r.g);
      if h.Failed? then h else Run(s, f, r.state, r.stack, open, h)
  }

  /** The whole iterative parse of `s`. */
  ghost function Iterative(s: Text, f: Settings): Progress {
    var h := Space(s, f, Going(0, []));
    if h.Failed? then h else Run(s, f, Start, [], [], h)
  }

  // ---------------------------------------------------------------- what the recursive descent has left to do

  /** After a complete value inside the brackets `open`: the enclosing loops, innermost first, then the epilogue. */
  ghost function Completed(s: Text, f: Settings, stack: seq<StackWord>, open: seq<Bracket>, g: Progress): Progress
    requires g.At(s) && Frames(stack, open)
    decreases |open|, 1
  {
    if open == [] then Epilogue(s, f, g)
    else
      var c := stack[|stack| - 1].count;
      Leave(s, f, stack, open,
            if open[|open| - 1] == Square then ArrayAfterElement(s, f, c, g) else ObjectAfterValue(s, f, c, g))
  }

  /** After the innermost bracket has closed with result `r`. */
  ghost function Leave(s: Text, f: Settings, stack: seq<StackWord>, open: seq<Bracket>, r: Progress): Progress
    requires (r.Going? ==> r.pos <= |s|) && Frames(stack, open) && open != []
    decreases |open|, 0
  {
    if r.Failed? then r else Completed(s, f, stack[..|stack| - 2], open[..|open| - 1], r)
  }

  /** What the recursive descent still does from the token boundary where the machine is in `state`. */
  ghost function Resume(s: Text, f: Settings, state: State, stack: seq<StackWord>, open: seq<Bracket>, g: Progress): Progress
    requires g.At(s) && Reachable(state, stack, open)
  {
    if state.Start? then Root(s, f, g)
    else if state.Finish? then DocumentEnd(s, g)
    else Leave(s, f, stack, open, Inner(s, f, state, stack[|stack| - 1].count, g))
  }

  /** The part of `Resume` up to the end of the innermost open bracket. */
  ghost function Inner(s: Text, f: Settings, state: State, c: nat, g: Progress): (r: Progress)
    requires g.At(s) && (InArray(state) || InObject(state))
    ensures r.Going? ==> r.pos <= |s|
  {
    match state
    case ArrayInitial => ArrayFirst(s, f, g)
    case Element => ArraySeparator(s, f, c, g)
    case ElementDelimiter => ArrayAfterComma(s, f, c, g)
    case ObjectInitial => ObjectFirst(s, f, g)
    case MemberKey => ObjectColon(s, f, c, g)
    case KeyValueDelimiter => ObjectValue(s, f, c, g)
    case MemberValue => ObjectSeparator(s, f, c, g)
    case MemberDelimiter => ObjectAfterComma(s, f, c, g)
  }

  // ---------------------------------------------------------------- one turn of the loop

  /** The recursive descent after a transition: skip blanks, resume. */
  ghost function ResumeAfter(s: Text, f: Settings, r: Outcome, open: seq<Bracket>): Progress
    requires r.g.At(s) && Reachable(r.state, r.stack, open)
  {
    if f.stopWhenDone && r.state.Finish? then r.g
    else
      var h := Space(s, f, r.g);
      if h.Failed? then h else Resume(s, f, r.state, r.stack, open, h)
  }

  /** What the descent has ahead of it, `whole`, is the transition `r` and then what the descent has ahead of it there. */
  ghost predicate GoesOn(s: Text, f: Settings, whole: Progress, r: Outcome, after: seq<Bracket>) {
    if r.state.Error? then r.g.Failed? && whole == r.g
    else r.g.At(s) && Reachable(r.state, r.stack, after) && whole == ResumeAfter(s, f, r, after)
  }

  lemma {:induction false} OpeningStep(
    s: Text, f: Settings, state: State, stack: seq<StackWord>, open: seq<Bracket>, g: Progress, dst: State, r: Outcome, after: seq<Bracket>)
    requires g.At(s) && Reachable(state, stack, open) && (Peek(s, g.pos) == '[' || Peek(s, g.pos) == '{')
    requires dst == Predict(state, Tokenize(Peek(s, g.pos))) && (dst.ArrayInitial? || dst.ObjectInitial?)
    requires r == OpenBracket(dst, state, stack, g) && after == OpenAfter(open, dst) && Reachable(r.state, r.stack, after)
    ensures GoesOn(s, f, Resume(s, f, state, stack, open, g), r, after)
  {
    assert r.stack[..|r.stack| - 2] == stack && after[..|after| - 1] == open;
    var v := Value(s, f, g);
    assert g.Emit(if dst.ObjectInitial? then StartObject else StartArray).Step(1)
        == g.Step(1).Emit(if dst.ObjectInitial? then StartObject else StartArray);
    var h := Space(s, f, r.g);
    assert v == if dst.ArrayInitial? then Array(s, f, g) else Object(s, f, g);
    assert v == if h.Failed? then h else if dst.ArrayInitial? then ArrayFirst(s, f, h) else ObjectFirst(s, f, h);
    assert ResumeAfter(s, f, r, after) == if v.Failed? then v else Completed(s, f, stack, open, v);
    ValueStep(s, f, state, stack, open, g);
  }

  /** Where a value is expected, the descent parses it and then completes it in the brackets around it. */
  lemma {:induction false} ValueStep(s: Text, f: Settings, state: State, stack: seq<StackWord>, open: seq<Bracket>, g: Progress)
    requires g.At(s) && Reachable(state, stack, open) && Peek(s, g.pos) != NUL
    requires state.Start? || state.ArrayInitial? || state.ElementDelimiter? || state.KeyValueDelimiter?
    requires Peek(s, g.pos) == ']' ==> state.Start? || state.KeyValueDelimiter?
    ensures var v := Value(s, f, g);
            Resume(s, f, state, stack, open, g) == if v.Failed? then v else Completed(s, f, stack, open, v)
  {
    var v := Value(s, f, g);
    if !state.Start? {
      var c := stack[|stack| - 1].count;
      if state.KeyValueDelimiter? {
        assert ObjectValue(s, f, c, g) == if v.Failed? then v else ObjectAfterValue(s, f, c, v);
      } else {
        assert Inner(s, f, state, c, g) == ArrayElements(s, f, c, g);
        assert ArrayElements(s, f, c, g) == if v.Failed? then v else ArrayAfterElement(s, f, c, v);
      }
    }
  }

  /** Completing a value is going on in the state its bracket returns to. */
  lemma {:induction false} CompletedStep(s: Text, f: Settings, stack: seq<StackWord>, open: seq<Bracket>, g: Progress)
    requires g.At(s) && Frames(stack, open)
    ensures var n := if open == [] then Finish else ReturnState(open);
            && Reachable(n, stack, open)
            && Completed(s, f, stack, open, g) == ResumeAfter(s, f, Outcome(n, stack, g), open)
  {
    if open != [] {
      var c := stack[|stack| - 1].count;
      var h := Space(s, f, g);
      if open[|open| - 1] == Square {
        assert ArrayAfterElement(s, f, c, g) == if h.Failed? then h else ArraySeparator(s, f, c, h);
      } else {
        assert ObjectAfterValue(s, f, c, g) == if h.Failed? then h else ObjectSeparator(s, f, c, h);
      }
    }
  }

  lemma {:induction false} ScalarStep(s: Text, f: Settings, state: State, stack: seq<StackWord>, open: seq<Bracket>, g: Progress)
    requires g.At(s) && Reachable(state, stack, open) && Peek(s, g.pos) != NUL && IsScalar(Tokenize(Peek(s, g.pos)))
    requires state.Start? || state.ArrayInitial? || state.ElementDelimiter? || state.KeyValueDelimiter?
    ensures var v := Value(s, f, g);
            var n := if open == [] then Finish else ReturnState(open);
            && Reachable(n, stack, open)
            && Resume(s, f, state, stack, open, g) == if v.Failed? then v else ResumeAfter(s, f, Outcome(n, stack, v), open)
  {
    ValueStep(s, f, state, stack, open, g);
    var v := Value(s, f, g);
    if v.Going? {
      CompletedStep(s, f, stack, open, v);
    }
  }

  lemma {:induction false} KeyStep(s: Text, f: Settings, state: State, stack: seq<StackWord>, open: seq<Bracket>, g: Progress)
    requires g.At(s) && Reachable(state, stack, open) && Peek(s, g.pos) == '"'
    requires state.ObjectInitial? || state.MemberDelimiter?
    ensures var k := Str(s, true, g);
            Resume(s, f, state, stack, open, g) == if k.Failed? then k else ResumeAfter(s, f, Outcome(MemberKey, stack, k), open)
  {
    var c := stack[|stack| - 1].count;
    var k := Str(s, true, g);
    assert Inner(s, f, state, c, g) == ObjectMembers(s, f, c, g);
    if k.Going? {
      var h := Space(s, f, k);
      assert ObjectMembers(s, f, c, g) == if h.Failed? then h else ObjectColon(s, f, c, h);
    }
  }

  lemma {:induction false} SeparatorStep(
    s: Text, f: Settings, state: State, stack: seq<StackWord>, open: seq<Bracket>, g: Progress, dst: State, r: Outcome)
    requires g.At(s) && Reachable(state, stack, open)
    requires (state.MemberKey? && Peek(s, g.pos) == ':')
          || ((state.Element? || state.MemberValue?) && Peek(s, g.pos) == ',')
    requires dst == Predict(state, Tokenize(Peek(s, g.pos))) && StackFits(dst, stack) && r == Transit(s, f, state, dst, stack, g)
    ensures GoesOn(s, f, Resume(s, f, state, stack, open, g), r, open)
  {
    var c := stack[|stack| - 1].count;
    var h := Space(s, f, g.Step(1));
    if state.MemberKey? {
      assert ObjectColon(s, f, c, g) == if h.Failed? then h else ObjectValue(s, f, c, h);
    } else {
      CountingKeepsReachable(state, dst, stack, open, c + 1);
      assert r.stack[..|stack| - 2] == stack[..|stack| - 2];
      if state.Element? {
        assert ArraySeparator(s, f, c, g) == if h.Failed? then h else ArrayAfterComma(s, f, c + 1, h);
      } else {
        assert ObjectSeparator(s, f, c, g) == if h.Failed? then h else ObjectAfterComma(s, f, c + 1, h);
      }
    }
  }

  lemma {:induction false} ClosingStep(
    s: Text, f: Settings, state: State, stack: seq<StackWord>, open: seq<Bracket>, g: Progress, dst: State, r: Outcome)
    requires g.At(s) && Reachable(state, stack, open) && Peek(s, g.pos) != NUL && open != []
    requires dst == Predict(state, Tokenize(Peek(s, g.pos))) && (dst.ArrayFinish? || dst.ObjectFinish?)
    requires StackFits(dst, stack) && r == CloseBracket(f, dst, state, stack, g)
    ensures GoesOn(s, f, Resume(s, f, state, stack, open, g), r, OpenAfter(open, dst))
  {
    InnerCloses(s, f, state, stack, open, g, dst, stack[|stack| - 1].count);
    if !r.state.Error? {
      CompletedStep(s, f, r.stack, OpenAfter(open, dst), r.g);
    }
  }

  /** A closing bracket ends the innermost loop of the descent with the count the machine pops. */
  lemma {:induction false} InnerCloses(
    s: Text, f: Settings, state: State, stack: seq<StackWord>, open: seq<Bracket>, g: Progress, dst: State, c: nat)
    requires g.At(s) && Reachable(state, stack, open) && Peek(s, g.pos) != NUL && open != []
    requires dst == Predict(state, Tokenize(Peek(s, g.pos))) && (dst.ArrayFinish? || dst.ObjectFinish?)
    requires StackFits(dst, stack) && c == stack[|stack| - 1].count
    ensures Inner(s, f, state, c, g) == CloseBracket(f, dst, state, stack, g).g
  {
    if state.ElementDelimiter? && !f.trailingCommas {
      assert ArrayAfterComma(s, f, c, g) == ArrayElements(s, f, c, g);
      assert Value(s, f, g) == Number(s, f, g) == g.Fail(ValueInvalid);
    }
    if state.MemberDelimiter? && !f.trailingCommas {
      assert ObjectAfterComma(s, f, c, g) == ObjectMembers(s, f, c, g);
    }
  }

  /** A token with no transition is the error the descent meets there, the root's case aside. */
  lemma {:induction false} ErrorStep(s: Text, f: Settings, state: State, stack: seq<StackWord>, open: seq<Bracket>, g: Progress)
    requires g.At(s) && Reachable(state, stack, open)
    requires Peek(s, g.pos) == NUL || (!state.Start? && Predict(state, Tokenize(Peek(s, g.pos))).Error?)
    ensures Resume(s, f, state, stack, open, g)
         == if Peek(s, g.pos) == NUL && state.Finish? then g else HandleError(state, g)
  {
    if open != [] {
      var c := stack[|stack| - 1].count;
      if state.ArrayInitial? || state.ElementDelimiter? || state.KeyValueDelimiter? {
        assert Value(s, f, g) == Number(s, f, g) == g.Fail(ValueInvalid);
        assert Inner(s, f, state, c, g) == g.Fail(ValueInvalid) by {
          if state.KeyValueDelimiter? {
            assert ObjectValue(s, f, c, g) == g.Fail(ValueInvalid);
          } else {
            assert ArrayElements(s, f, c, g) == g.Fail(ValueInvalid);
          }
        }
      }
      if state.ObjectInitial? || state.MemberDelimiter? {
        assert Inner(s, f, state, c, g) == ObjectMembers(s, f, c, g);
      }
    }
  }

  // ---------------------------------------------------------------- the parsers agree

  /** A first byte that opens no value: both parsers stop there, with different error codes. */
  predicate StrayRoot(c: Byte) {
    c == ']' || c == '}' || c == ',' || c == ':'
  }

  /** One transition, whatever it is, leaves the rest of the descent unchanged. */
  lemma {:induction false} TurnStep(
    s: Text, f: Settings, state: State, stack: seq<StackWord>, open: seq<Bracket>, g: Progress, dst: State, r: Outcome)
    requires g.At(s) && Reachable(state, stack, open) && Peek(s, g.pos) != NUL
    requires dst == Predict(state, Tokenize(Peek(s, g.pos))) && !dst.Error? && StackFits(dst, stack)
    requires dst.ArrayFinish? || dst.ObjectFinish? ==> open != []
    requires r == Transit(s, f, state, dst, stack, g)
    ensures GoesOn(s, f, Resume(s, f, state, stack, open, g), r, OpenAfter(open, dst))
  {
    match dst {
      case ArrayInitial | ObjectInitial => OpeningTurn(s, f, state, stack, open, g, dst, r);
      case MemberKey => KeyStep(s, f, state, stack, open, g);
      case KeyValueDelimiter | MemberDelimiter | ElementDelimiter => SeparatorStep(s, f, state, stack, open, g, dst, r);
      case ArrayFinish | ObjectFinish => ClosingStep(s, f, state, stack, open, g, dst, r);
      case SingleValue | Element | MemberValue => ScalarStep(s, f, state, stack, open, g);
    }
  }

  lemma {:induction false} OpeningTurn(
    s: Text, f: Settings, state: State, stack: seq<StackWord>, open: seq<Bracket>, g: Progress, dst: State, r: Outcome)
    requires g.At(s) && Reachable(state, stack, open) && Peek(s, g.pos) != NUL && (dst.ArrayInitial? || dst.ObjectInitial?)
    requires dst == Predict(state, Tokenize(Peek(s, g.pos))) && r == Transit(s, f, state, dst, stack, g)
    ensures GoesOn(s, f, Resume(s, f, state, stack, open, g), r, OpenAfter(open, dst))
  {
    OpeningBegins(s, f, state, stack, g, dst);
    OpeningKeepsReachable(state, Tokenize(Peek(s, g.pos)), dst, stack, open);
    OpeningStep(s, f, state, stack, open, g, dst, r, OpenAfter(open, dst));
  }

  /** Only an opening bracket leads to its initial state. */
  lemma {:induction false} OpeningBegins(s: Text, f: Settings, state: State, stack: seq<StackWord>, g: Progress, dst: State)
    requires g.At(s) && dst == Predict(state, Tokenize(Peek(s, g.pos))) && (dst.ArrayInitial? || dst.ObjectInitial?)
    ensures Peek(s, g.pos) == '[' || Peek(s, g.pos) == '{'
    ensures Transit(s, f, state, dst, stack, g) == OpenBracket(dst, state, stack, g)
  {
  }

  /** From every reachable configuration the stack machine ends exactly as the descent it stands for. */
  lemma {:induction false} RunIsResume(s: Text, f: Settings, state: State, stack: seq<StackWord>, open: seq<Bracket>, g: Progress)
    requires g.At(s) && Reachable(state, stack, open)
    requires state.Start? ==> !StrayRoot(Peek(s, g.pos))
    ensures Run(s, f, state, stack, open, g) == Resume(s, f, state, stack, open, g)
    decreases |s| - g.pos
  {
    var t := Tokenize(Peek(s, g.pos));
    var dst := Predict(state, t);
    if Peek(s, g.pos) == NUL || dst.Error? {
      ErrorStep(s, f, state, stack, open, g);
    } else {
      StackAlwaysFits(state, stack, open, t);
      var r := Transit(s, f, state, dst, stack, g);
      TurnStep(s, f, state, stack, open, g, dst, r);
      if !r.state.Error? {
        ContinueIsResume(s, f, r, OpenAfter(open, dst), g.pos);
      }
    }
  }

  lemma {:induction false} ContinueIsResume(s: Text, f: Settings, r: Outcome, open: seq<Bracket>, from: nat)
    requires r.g.At(s) && from < r.g.pos && Reachable(r.state, r.stack, open) && !r.state.Start?
    ensures Continue(s, f, r, open, from) == ResumeAfter(s, f, r, open)
    decreases |s| - from, 0
  {
    var h := Space(s, f, r.g);
    if h.Going? {
      RunIsResume(s, f, r.state, r.stack, open, h);
    }
  }

  /**
   * Both parsers send the same events and end with the same verdict, error code and offset,
   * whatever the flags, unless the first byte after the leading blanks opens no value; then only the code differs.
   */
  lemma {:induction false} ParsersAgree(s: Text, f: Settings)
    ensures var start := Space(s, f, Going(0, []));
            if start.Going? && StrayRoot(Peek(s, start.pos))
            then Iterative(s, f) == Failed(DocumentEmpty, start.pos, []) && Document(s, f) == Failed(ValueInvalid, start.pos, [])
            else Iterative(s, f) == Document(s, f)
  {
    var start := Space(s, f, Going(0, []));
    if start.Going? {
      if StrayRoot(Peek(s, start.pos)) {
        assert Value(s, f, start) == Number(s, f, start) == start.Fail(ValueInvalid);
        assert Predict(Start, Tokenize(Peek(s, start.pos))).Error?;
        assert Run(s, f, Start, [], [], start) == HandleError(Start, start);
      } else {
        RunIsResume(s, f, Start, [], [], start);
      }
    }
  }

  /** A text on which the codes differ. */
  lemma {:induction false} CodesDiffer(f: Settings)
    ensures Iterative("]", f) == Failed(DocumentEmpty, 0, []) && Document("]", f) == Failed(ValueInvalid, 0, [])
  {
    ParsersAgree("]", f);
  }
}
