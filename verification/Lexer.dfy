/**
  The table-driven lexer of the sim^2 language.

  `Tokenize` is the single left-to-right pass of the source; `Lex` says what that pass computes in
  terms of maximal runs of characters.  A run is turned into a token only when a later character
  ends it, so a run that touches the end of the input yields no token.
 */
module Lexer {
  import opened Results

  datatype Token =
    | Id(name: string)
    | Int(val: int)
    | Sim | Lpar | Rpar | End | If | Block | Then | Else | Rand | OneEq | Add | Sub
    | Lt | Gt | TwoEq | Move | Hunt | Rest | Breed | IdRest | IdEnergy
    | DirN | DirNE | DirE | DirSE | DirS | DirSW | DirW | DirNW

  datatype State = Initial | Identifier | Operator | Number | Stop

  datatype CharType = White | Digit | Letter | Punc

  datatype LexerError =
    | InvalidCharType
    | InvalidTransition
    | InvalidOperatorString
    | InvalidTokenState
    | ParseNumberError

  type LexResult = Result<seq<Token>, LexerError>

  const I32_MIN := -0x8000_0000
  const I32_MAX := 0x7fff_ffff

  // ------------------------------------------------------------------ characters and states

  predicate IsWhite(c: char) {
    c == ' ' || c == '\t' || c == '\n' || c == '\r' || c == '\U{000C}'
  }

  predicate IsLetter(c: char) {
    'a' <= c <= 'z' || 'A' <= c <= 'Z'
  }

  predicate IsDigit(c: char) {
    '0' <= c <= '9'
  }

  predicate IsPunc(c: char) {
    c == '(' || c == ')' || c == '<' || c == '>' || c == '='
  }

  function TypeOf(c: char): Result<CharType, LexerError> {
    if IsWhite(c) then Success(White)
    else if IsLetter(c) then Success(Letter)
    else if IsDigit(c) then Success(Digit)
    else if IsPunc(c) then Success(Punc)
    else Failure(InvalidCharType)
  }

  function Transition(ct: CharType, s: State): Result<State, LexerError> {
    match s
    case Initial | Stop => (
      match ct
      case White => Success(Initial)
      case Digit => Success(Number)
      case Letter => Success(Identifier)
      case Punc => Success(Operator))
    case Identifier => (
      match ct
      case White | Punc => Success(Stop)
      case Digit | Letter => Success(Identifier))
    case Operator => (
      match ct
      case White | Digit | Letter => Success(Stop)
      case Punc => Success(Operator))
    case Number => (
      match ct
      case White | Punc => Success(Stop)
      case Digit => Success(Number)
      case Letter => Failure(InvalidTransition))
  }

  // ------------------------------------------------------------------ framed text to token

  function ProcessIdentifier(s: string): Token {
    if s == "sim" then Sim
    else if s == "if" then If
    else if s == "end" then End
    else if s == "then" then Then
    else if s == "else" then Else
    else if s == "move" then Move
    else if s == "block" then Block
    else if s == "rest" then Rest
    else if s == "breed" then Breed
    else if s == "hunt" then Hunt
    else if s == "add" then Add
    else if s == "sub" then Sub
    else if s == "rand" then Rand
    else if s == "awakeDaily" then IdRest
    else if s == "energy" then IdEnergy
    else if s == "N" then DirN
    else if s == "NE" then DirNE
    else if s == "E" then DirE
    else if s == "SE" then DirSE
    else if s == "S" then DirS
    else if s == "SW" then DirSW
    else if s == "W" then DirW
    else if s == "NW" then DirNW
    else Id(s)
  }

  function ProcessOperator(s: string): Result<Token, LexerError> {
    if s == "(" then Success(Lpar)
    else if s == ")" then Success(Rpar)
    else if s == "=" then Success(OneEq)
    else if s == "==" then Success(TwoEq)
    else if s == "<" then Success(Lt)
    else if s == ">" then Success(Gt)
    else Failure(InvalidOperatorString)
  }

  predicate AllDigits(s: string) {
    forall i :: 0 <= i < |s| ==> IsDigit(s[i])
  }

  function DigitValue(c: char): int {
    c as int - '0' as int
  }

  function DecimalValue(s: string): int {
    if s == "" then 0 else 10 * DecimalValue(s[..|s| - 1]) + DigitValue(s[|s| - 1])
  }

  // Rust's `parse::<i32>`: an optional sign, at least one digit, and a value that fits.
  function ParseI32(s: string): Result<int, LexerError> {
    var digits := if s != "" && (s[0] == '-' || s[0] == '+') then s[1..] else s;
    if digits == "" || !AllDigits(digits) then
      Failure(ParseNumberError)
    else
      var v := if s[0] == '-' then -DecimalValue(digits) else DecimalValue(digits);
      if I32_MIN <= v <= I32_MAX then Success(v) else Failure(ParseNumberError)
  }

  function Str2Token(slice: string, state: State): Result<Token, LexerError> {
    match state
    case Identifier => Success(ProcessIdentifier(slice))
    case Operator => ProcessOperator(slice)
    case Number =>
      var v :- ParseI32(slice);
      Success(Int(v))
    case Initial | Stop => Failure(InvalidTokenState)
  }

  // ------------------------------------------------------------------ the reference: maximal runs

  // The characters that may continue a run of the given kind.
  predicate InRun(st: State, c: char) {
    match st
    case Identifier => IsLetter(c) || IsDigit(c)
    case Operator => IsPunc(c)
    case Number => IsDigit(c)
    case Initial | Stop => false
  }

  function RunLength(st: State, s: string): (k: nat)
    ensures k <= |s|
    ensures forall i :: 0 <= i < k ==> InRun(st, s[i])
    ensures k < |s| ==> !InRun(st, s[k])
  {
    if s == "" || !InRun(st, s[0]) then 0 else 1 + RunLength(st, s[1..])
  }

  // The kind of run that a non-white character starts.
  function RunKind(ct: CharType): State {
    match ct
    case Digit => Number
    case Letter => Identifier
    case Punc => Operator
    case White => Initial
  }

  // The tokens of `s`: skip white space, cut off the longest run, classify it, go on behind it.
  function Lex(s: string): LexResult
    decreases |s|
  {
    if s == "" then Success([])
    else
      var ct :- TypeOf(s[0]);
      if ct == White then Lex(s[1..])
      else
        var st := RunKind(ct);
        var k := RunLength(st, s);
        if k == |s| then Success([])
        else AfterRun(st, s[..k], s[k], Lex(s[k..]))
  }

  // A run ended by the character `c`, with `rest` made of the text that begins with `c`.
  function AfterRun(st: State, run: string, c: char, rest: LexResult): LexResult {
    var next :- TypeOf(c);
    if st == Number && next == Letter then Failure(InvalidTransition)
    else
      var t :- Str2Token(run, st);
      Prepend([t], rest)
  }

  function Prepend(ts: seq<Token>, r: LexResult): LexResult {
    if r.Success? then Success(ts + r.value) else r
  }

  lemma PrependTwice(ts: seq<Token>, us: seq<Token>, r: LexResult)
    ensures Prepend(ts, Prepend(us, r)) == Prepend(ts + us, r)
    ensures Prepend([], r) == r
  {
    if r.Success? {
      assert ts + (us + r.value) == ts + us + r.value;
      assert [] + r.value == r.value;
    }
  }

  // ------------------------------------------------------------------ the single pass

  lemma RunLengthIs(st: State, s: string, k: nat)
    requires k <= |s|
    requires forall i :: 0 <= i < k ==> InRun(st, s[i])
    requires k < |s| ==> !InRun(st, s[k])
    ensures RunLength(st, s) == k
  {
  }

  // What the loop knows after reading `contents[..head]`.
  ghost predicate Reading(contents: string, tokens: seq<Token>, state: State, tail: nat, head: nat) {
    && tail <= head <= |contents|
    && (state == Initial ==> Lex(contents) == Prepend(tokens, Lex(contents[head..])))
    && (state != Initial ==>
      && tail < head
      && state in {Identifier, Operator, Number}
      && TypeOf(contents[tail]).Success?
      && RunKind(TypeOf(contents[tail]).value) == state
      && (forall i :: tail <= i < head ==> InRun(state, contents[i]))
      && Lex(contents) == Prepend(tokens, Lex(contents[tail..])))
  }

  lemma RunEnds(contents: string, state: State, tail: nat, head: nat)
    requires tail < head <= |contents|
    requires TypeOf(contents[tail]).Success? && TypeOf(contents[tail]).value != White
    requires RunKind(TypeOf(contents[tail]).value) == state
    requires forall i :: tail <= i < head ==> InRun(state, contents[i])
    requires head < |contents| ==> !InRun(state, contents[head])
    ensures Lex(contents[tail..]) ==
            if head == |contents| then Success([])
            else AfterRun(state, contents[tail..head], contents[head], Lex(contents[head..]))
  {
    hide AfterRun, RunLength;
    var s := contents[tail..];
    RunLengthIs(state, s, head - tail);
    assert s[..head - tail] == contents[tail..head] && s[head - tail..] == contents[head..];
  }

  method Tokenize(contents: string) returns (r: LexResult)
    ensures r == Lex(contents)
  {
    hide Str2Token, Lex;
    var tail := 0;
    var state := Initial;
    var tokens: seq<Token> := [];
    assert contents[0..] == contents;
    PrependTwice([], [], Lex(contents));
    for head := 0 to |contents|
      invariant Reading(contents, tokens, state, tail, head)
      invariant forall i :: 0 <= i < head ==> TypeOf(contents[i]).Success?
    {
      var c := contents[head];
      LexFirst(contents, head);
      if state != Initial && !InRun(state, c) {
        RunEnds(contents, state, tail, head);
      }
      var ct :- TypeOf(c);
      var newState :- Transition(ct, state);
      match newState {
        case Initial =>
          tail := head;
        case Stop =>
          // The source counts characters but slices bytes: both bounds fall on the same places.
          LexableTextIsAscii(contents, tail);
          LexableTextIsAscii(contents, head);
          assert ByteOffset(contents, tail) == tail && ByteOffset(contents, head) == head;
          var slice := contents[tail..head];
          var token :- Str2Token(slice, state);
          PrependTwice(tokens, [token], Lex(contents[head..]));
          tokens := tokens + [token];
          tail := head;
          newState := Transition(ct, Initial).value;  // never fails from the initial state
        case _ =>
          if state == Initial {
            tail := head;
          }
      }
      state := newState;
    }
    if state != Initial {
      RunEnds(contents, state, tail, |contents|);
    } else {
      LexNothing(contents);
    }
    assert tokens + [] == tokens;
    return Success(tokens);
  }

  lemma LexFirst(contents: string, head: nat)
    requires head < |contents|
    ensures TypeOf(contents[head]).Failure? ==> Lex(contents[head..]) == Failure(InvalidCharType)
    ensures IsWhite(contents[head]) ==> Lex(contents[head..]) == Lex(contents[head + 1..])
  {
    assert contents[head..][1..] == contents[head + 1..];
  }

  lemma LexNothing(contents: string)
    ensures Lex(contents[|contents|..]) == Success([])
  {
  }

  // ------------------------------------------------------------------ characters and bytes

  function Utf8Length(c: char): nat {
    var v := c as int;
    if v < 0x80 then 1 else if v < 0x800 then 2 else if v < 0x1_0000 then 3 else 4
  }

  // Where the character with index `k` starts, counted in bytes.
  function ByteOffset(s: string, k: nat): nat
    requires k <= |s|
  {
    if k == 0 then 0 else ByteOffset(s, k - 1) + Utf8Length(s[k - 1])
  }

  lemma {:induction false} LexableTextIsAscii(s: string, k: nat)
    requires k <= |s|
    requires forall i :: 0 <= i < k ==> TypeOf(s[i]).Success?
    ensures ByteOffset(s, k) == k
  {
    if k > 0 {
      LexableTextIsAscii(s, k - 1);
    }
  }

  // ------------------------------------------------------------------ splitting at white space

  lemma {:induction false} LexSplitsAtWhite(a: string, w: char, b: string)
    requires IsWhite(w)
    ensures var first := Lex(a + [w]);
            Lex(a + [w] + b) == if first.Failure? then first else Prepend(first.value, Lex(b))
    decreases |a|
  {
    var s, s0 := a + [w] + b, a + [w];
    if a == "" {
      assert s0[1..] == "" && s[1..] == b;
      PrependTwice([], [], Lex(b));
    } else if TypeOf(a[0]).Success? {
      if IsWhite(a[0]) {
        assert s[1..] == a[1..] + [w] + b && s0[1..] == a[1..] + [w];
        LexSplitsAtWhite(a[1..], w, b);
      } else {
        var st := RunKind(TypeOf(a[0]).value);
        var k := RunLength(st, s);
        assert k <= |a| by { assert !InRun(st, s[|a|]); }
        assert forall i :: 0 <= i <= |a| ==> s[i] == s0[i];
        RunLengthIs(st, s0, k);
        assert s[k..] == a[k..] + [w] + b && s0[k..] == a[k..] + [w];
        assert s[..k] == s0[..k];
        LexSplitsAtWhite(a[k..], w, b);
        var t := Str2Token(s[..k], st);
        if t.Success? && Lex(s0[k..]).Success? {
          PrependTwice([t.value], Lex(s0[k..]).value, Lex(b));
        }
      }
    }
  }

  predicate AllWhite(s: string) {
    forall i :: 0 <= i < |s| ==> IsWhite(s[i])
  }

  lemma {:induction false} LexSkipsWhite(ws: string, b: string)
    requires AllWhite(ws)
    ensures Lex(ws + b) == Lex(b)
    decreases |ws|
  {
    if ws == "" {
      assert ws + b == b;
    } else {
      assert (ws + b)[1..] == ws[1..] + b;
      LexSkipsWhite(ws[1..], b);
    }
  }

  // ------------------------------------------------------------------ writing tokens down

  predicate IsName(s: string) {
    && s != ""
    && IsLetter(s[0])
    && (forall i :: 0 <= i < |s| ==> IsLetter(s[i]) || IsDigit(s[i]))
  }

  // The tokens the lexer can produce: names that are no keywords, and constants from 0 to I32_MAX.
  predicate Writable(t: Token) {
    match t
    case Id(s) => IsName(s) && ProcessIdentifier(s) == t
    case Int(v) => 0 <= v <= I32_MAX
    case _ => true
  }

  function DecimalText(n: nat): string {
    if n < 10 then [('0' as int + n) as char]
    else DecimalText(n / 10) + [('0' as int + n % 10) as char]
  }

  function TokenText(t: Token): string
    requires Writable(t)
  {
    match t
    case Id(s) => s
    case Int(v) => DecimalText(v)
    case Sim => "sim"
    case Lpar => "("
    case Rpar => ")"
    case End => "end"
    case If => "if"
    case Block => "block"
    case Then => "then"
    case Else => "else"
    case Rand => "rand"
    case OneEq => "="
    case Add => "add"
    case Sub => "sub"
    case Lt => "<"
    case Gt => ">"
    case TwoEq => "=="
    case Move => "move"
    case Hunt => "hunt"
    case Rest => "rest"
    case Breed => "breed"
    case IdRest => "awakeDaily"
    case IdEnergy => "energy"
    case DirN => "N"
    case DirNE => "NE"
    case DirE => "E"
    case DirSE => "SE"
    case DirS => "S"
    case DirSW => "SW"
    case DirW => "W"
    case DirNW => "NW"
  }

  lemma {:induction false} DecimalTextReadsBack(n: nat)
    ensures var s := DecimalText(n); s != "" && AllDigits(s) && DecimalValue(s) == n
  {
    if n < 10 {
      var s := DecimalText(n);
      assert s[..|s| - 1] == "" && DecimalValue("") == 0;
    } else {
      DecimalTextReadsBack(n / 10);
      var s := DecimalText(n);
      assert s[..|s| - 1] == DecimalText(n / 10);
    }
  }

  // Whether `c` belongs to the same word or operator as a neighbouring run of this kind.
  predicate Touches(st: State, c: char) {
    if st == Operator then IsPunc(c) else IsLetter(c) || IsDigit(c)
  }

  ghost predicate IsRun(run: string, st: State) {
    && run != "" && st in {Identifier, Operator, Number}
    && TypeOf(run[0]).Success? && RunKind(TypeOf(run[0]).value) == st
    && forall i :: 0 <= i < |run| ==> InRun(st, run[i])
  }

  // A run followed by something it does not continue in.
  lemma RunThenRest(run: string, st: State, rest: string)
    requires IsRun(run, st) && rest != "" && !InRun(st, rest[0])
    ensures Lex(run + rest) == AfterRun(st, run, rest[0], Lex(rest))
  {
    hide AfterRun, Lex, InRun;
    var s := run + rest;
    assert s[0..] == s && s[0..|run|] == run && s[|run|..] == rest && s[|run|] == rest[0];
    RunEnds(s, st, 0, |run|);
  }

  lemma LexOneRun(run: string, st: State, rest: string)
    requires IsRun(run, st) && rest != "" && TypeOf(rest[0]).Success? && !Touches(st, rest[0])
    ensures var token := Str2Token(run, st);
            Lex(run + rest) == if token.Failure? then Failure(token.error) else Prepend([token.value], Lex(rest))
  {
    hide Str2Token, Lex;
    RunThenRest(run, st, rest);
  }

  predicate IsOperator(t: Token) {
    t in {Lpar, Rpar, OneEq, Lt, Gt, TwoEq}
  }

  lemma ShortDirectionReadsBack(t: Token)
    requires t in {DirN, DirE, DirS, DirW}
    ensures ProcessIdentifier(TokenText(t)) == t
  {
  }

  lemma LongDirectionReadsBack(t: Token)
    requires t in {DirNE, DirSE, DirSW, DirNW}
    ensures ProcessIdentifier(TokenText(t)) == t
  {
  }

  lemma ActionWordReadsBack(t: Token)
    requires t in {Move, Hunt, Rest, Breed}
    ensures ProcessIdentifier(TokenText(t)) == t
  {
  }

  lemma ValueWordReadsBack(t: Token)
    requires t in {Rand, IdRest, IdEnergy}
    ensures ProcessIdentifier(TokenText(t)) == t
  {
  }

  lemma KeywordReadsBack(t: Token)
    requires Writable(t) && !t.Int? && !IsOperator(t)
    ensures ProcessIdentifier(TokenText(t)) == t
  {
    if t in {DirN, DirE, DirS, DirW} {
      ShortDirectionReadsBack(t);
    } else if t in {DirNE, DirSE, DirSW, DirNW} {
      LongDirectionReadsBack(t);
    } else if t in {Move, Hunt, Rest, Breed} {
      ActionWordReadsBack(t);
    } else if t in {Rand, IdRest, IdEnergy} {
      ValueWordReadsBack(t);
    }
  }

  lemma KeywordIsName(t: Token)
    requires Writable(t) && !t.Int? && !IsOperator(t)
    ensures IsName(TokenText(t))
  {
    hide ProcessIdentifier;
  }

  // The kind of run that the text of a token is.
  function KindOf(t: Token): State {
    if t.Int? then Number else if IsOperator(t) then Operator else Identifier
  }

  lemma TokenIsRun(t: Token)
    requires Writable(t)
    ensures IsRun(TokenText(t), KindOf(t)) && Str2Token(TokenText(t), KindOf(t)) == Success(t)
  {
    hide ProcessIdentifier, DecimalValue, DecimalText;
    if t.Int? {
      DecimalTextReadsBack(t.val);
    } else if !IsOperator(t) {
      hide TokenText;
      KeywordReadsBack(t);
      KeywordIsName(t);
    } else {
      OperatorIsRun(t);
    }
  }

  lemma OperatorIsRun(t: Token)
    requires IsOperator(t)
    ensures IsRun(TokenText(t), Operator) && Str2Token(TokenText(t), Operator) == Success(t)
  {
  }

  lemma TokenThenRest(t: Token, rest: string)
    requires Writable(t) && rest != "" && TypeOf(rest[0]).Success? && !Touches(KindOf(t), rest[0])
    ensures Lex(TokenText(t) + rest) == Prepend([t], Lex(rest))
  {
    hide TokenText, Str2Token, Lex, Writable;
    TokenIsRun(t);
    LexOneRun(TokenText(t), KindOf(t), rest);
  }

  lemma TokenReadsBack(t: Token, w: char)
    requires Writable(t) && IsWhite(w)
    ensures Lex(TokenText(t) + [w]) == Success([t])
  {
    hide TokenText, Writable;
    TokenThenRest(t, [w]);
    LexSkipsWhite([w], "");
    assert [w] + "" == [w] && [t] + [] == [t];
  }

  // Tokens written out with something behind each one.
  function Layout(ts: seq<Token>, gaps: seq<string>): string
    requires |ts| == |gaps| && forall t <- ts :: Writable(t)
  {
    if ts == [] then "" else TokenText(ts[0]) + gaps[0] + Layout(ts[1..], gaps[1..])
  }

  ghost predicate AllWhiteGaps(gaps: seq<string>) {
    forall i :: 0 <= i < |gaps| ==> AllWhite(gaps[i])
  }

  // Behind a token there is white space, or at once a sign behind a word or a word behind a sign.
  predicate Parted(st: State, gap: string, next: seq<Token>) {
    gap != "" || (next != [] && (st == Operator) != IsOperator(next[0]))
  }

  ghost predicate Fits(ts: seq<Token>, gaps: seq<string>)
    requires |ts| == |gaps|
  {
    AllWhiteGaps(gaps) && forall i :: 0 <= i < |ts| ==> Parted(KindOf(ts[i]), gaps[i], ts[i + 1..])
  }

  // The same, but the last token may touch the end of the text.
  ghost predicate FitsButLast(ts: seq<Token>, gaps: seq<string>)
    requires |ts| == |gaps|
  {
    AllWhiteGaps(gaps) && forall i :: 0 <= i < |ts| - 1 ==> Parted(KindOf(ts[i]), gaps[i], ts[i + 1..])
  }

  // What comes behind a parted token does not continue it.
  lemma PartedRest(st: State, gap: string, ts: seq<Token>, gaps: seq<string>)
    requires |ts| == |gaps| && forall t <- ts :: Writable(t)
    requires AllWhite(gap) && Parted(st, gap, ts)
    ensures var rest := gap + Layout(ts, gaps); rest != "" && TypeOf(rest[0]).Success? && !Touches(st, rest[0])
  {
    hide TokenText, Writable;
    if gap == "" {
      TokenIsRun(ts[0]);
      assert (gap + Layout(ts, gaps))[0] == TokenText(ts[0])[0];
    } else {
      assert (gap + Layout(ts, gaps))[0] == gap[0];
    }
  }

  // Tokens that are parted are read back; one that touches the end of the text is left out.
  lemma {:induction false} LayoutReadsBack(ts: seq<Token>, gaps: seq<string>)
    requires |ts| == |gaps| && (forall t <- ts :: Writable(t)) && FitsButLast(ts, gaps)
    ensures Lex(Layout(ts, gaps)) ==
            Success(if ts != [] && gaps[|ts| - 1] == "" then ts[..|ts| - 1] else ts)
    decreases |ts|
  {
    hide TokenText, Lex, Writable, Parted;
    if ts == [] {
      LexNothing("");
    } else {
      var text, gap, rest := TokenText(ts[0]), gaps[0], Layout(ts[1..], gaps[1..]);
      assert text + gap + rest == text + (gap + rest);
      if |ts| == 1 && gap == "" {
        TokenIsRun(ts[0]);
        assert text + gap + rest == text;
        LoneRun(text, KindOf(ts[0]));
      } else {
        if |ts| == 1 {
          GapParts(KindOf(ts[0]), gap, ts[1..]);
        }
        assert AllWhiteGaps(gaps[1..]);
        PartedRest(KindOf(ts[0]), gap, ts[1..], gaps[1..]);
        TokenThenRest(ts[0], gap + rest);
        LexSkipsWhite(gap, rest);
        TailFits(ts, gaps);
        LayoutReadsBack(ts[1..], gaps[1..]);
        assert [ts[0]] + ts[1..] == ts;
        assert |ts| > 1 ==> [ts[0]] + ts[1..][..|ts| - 2] == ts[..|ts| - 1];
      }
    }
  }

  lemma GapParts(st: State, gap: string, next: seq<Token>)
    requires gap != ""
    ensures Parted(st, gap, next)
  {
  }

  lemma TailFits(ts: seq<Token>, gaps: seq<string>)
    requires |ts| == |gaps| > 0
    ensures FitsButLast(ts, gaps) ==> FitsButLast(ts[1..], gaps[1..])
    ensures Fits(ts, gaps) <==>
      AllWhite(gaps[0]) && Parted(KindOf(ts[0]), gaps[0], ts[1..]) && Fits(ts[1..], gaps[1..])
  {
    hide Parted, KindOf;
    var us, hs := ts[1..], gaps[1..];
    forall i | 0 <= i < |us|
      ensures us[i] == ts[i + 1] && hs[i] == gaps[i + 1]
      ensures Parted(KindOf(us[i]), hs[i], us[i + 1..]) == Parted(KindOf(ts[i + 1]), gaps[i + 1], ts[i + 2..])
    {
      assert us[i + 1..] == ts[i + 2..];
    }
    assert ts[0 + 1..] == us;
    if AllWhite(gaps[0]) && Parted(KindOf(ts[0]), gaps[0], us) && Fits(us, hs) {
      forall i | 0 <= i < |ts| ensures AllWhite(gaps[i]) && Parted(KindOf(ts[i]), gaps[i], ts[i + 1..]) {
        if i > 0 {
          assert AllWhite(hs[i - 1]) && Parted(KindOf(us[i - 1]), hs[i - 1], us[i - 1 + 1..]);
        }
      }
    }
  }

  lemma LoneRun(run: string, st: State)
    requires IsRun(run, st)
    ensures Lex(run) == Success([])
  {
    RunLengthIs(st, run, |run|);
  }

  // ------------------------------------------------------------------ tokens that are not parted

  // A longer run of the same kind.
  lemma RunsMerge(u: string, st: State, v: string, kind: State)
    requires IsRun(u, st) && IsRun(v, kind) && (st == Operator) == (kind == Operator)
    ensures v != "" && (st == Number && kind == Identifier ==> IsLetter(v[0]) && !InRun(st, v[0]))
    ensures !(st == Number && kind == Identifier) ==> IsRun(u + v, st)
  {
  }

  // From a run, a gap and a layout come at most as many tokens as went in, and that many only if all
  // are parted.
  lemma {:induction false} NoMoreTokens(u: string, st: State, gap: string, ts: seq<Token>, gaps: seq<string>)
    requires IsRun(u, st) && AllWhite(gap) && AllWhiteGaps(gaps)
    requires |ts| == |gaps| && forall t <- ts :: Writable(t)
    ensures var r := Lex(u + gap + Layout(ts, gaps));
            r.Success? ==> |r.value| <= 1 + |ts| && (|r.value| == 1 + |ts| ==> Parted(st, gap, ts) && Fits(ts, gaps))
    decreases |ts|, 1
  {
    hide *;
    if gap == "" && ts == [] {
      NothingLaidOut(u, ts, gaps);
      LoneRun(u, st);
    } else if Parted(st, gap, ts) {
      var rest := Layout(ts, gaps);
      assert u + gap + rest == u + (gap + rest);
      PartedRest(st, gap, ts, gaps);
      LexOneRun(u, st, gap + rest);
      LexSkipsWhite(gap, rest);
      LayoutHasNoMoreTokens(ts, gaps);
      PrependAddsOne(Lex(u + gap + rest), Str2Token(u, st), Lex(rest));
    } else {
      NotPartedIs(st, gap, ts);
      NotPartedMerges(u, st, gap, ts, gaps);
    }
  }

  lemma NothingLaidOut(u: string, ts: seq<Token>, gaps: seq<string>)
    requires ts == [] && |gaps| == 0
    ensures u + "" + Layout(ts, gaps) == u
  {
  }

  lemma PrependAddsOne(r: LexResult, token: Result<Token, LexerError>, rest: LexResult)
    requires r == if token.Failure? then Failure(token.error) else Prepend([token.value], rest)
    ensures r.Success? ==> rest.Success? && |r.value| == 1 + |rest.value|
  {
  }

  lemma LayoutSteps(ts: seq<Token>, gaps: seq<string>)
    requires ts != [] && |ts| == |gaps| && forall t <- ts :: Writable(t)
    ensures Layout(ts, gaps) == TokenText(ts[0]) + gaps[0] + Layout(ts[1..], gaps[1..])
  {
  }

  lemma NotPartedIs(st: State, gap: string, next: seq<Token>)
    requires !Parted(st, gap, next)
    ensures gap == "" && (next != [] ==> (st == Operator) == (KindOf(next[0]) == Operator))
  {
  }

  lemma {:induction false} NotPartedMerges(u: string, st: State, gap: string, ts: seq<Token>, gaps: seq<string>)
    requires IsRun(u, st) && AllWhite(gap) && AllWhiteGaps(gaps)
    requires |ts| == |gaps| > 0 && (forall t <- ts :: Writable(t)) && !Parted(st, gap, ts)
    ensures var r := Lex(u + gap + Layout(ts, gaps)); r.Success? ==> |r.value| <= |ts|
    decreases |ts|, 0
  {
    hide *;
    NotPartedIs(st, gap, ts);
    LayoutSteps(ts, gaps);
    var v, kind, more := TokenText(ts[0]), KindOf(ts[0]), Layout(ts[1..], gaps[1..]);
    TokenIsRun(ts[0]);
    RunsMerge(u, st, v, kind);
    if st == Number && kind == Identifier {
      var rest := v + gaps[0] + more;
      assert u + gap + rest == u + rest && v <= rest;
      NumberThenLetter(u, rest, v);
    } else {
      assert u + gap + (v + gaps[0] + more) == (u + v) + gaps[0] + more;
      TailIsWhite(gaps);
      NoMoreTokens(u + v, st, gaps[0], ts[1..], gaps[1..]);
    }
  }

  lemma {:induction false} LayoutHasNoMoreTokens(ts: seq<Token>, gaps: seq<string>)
    requires AllWhiteGaps(gaps) && |ts| == |gaps| && forall t <- ts :: Writable(t)
    ensures var r := Lex(Layout(ts, gaps));
            r.Success? ==> |r.value| <= |ts| && (|r.value| == |ts| ==> Fits(ts, gaps))
    decreases |ts|, 0
  {
    hide TokenText, Lex, Writable, IsRun, Parted, KindOf, Str2Token;
    if ts == [] {
      LexNothing("");
    } else {
      TokenIsRun(ts[0]);
      TailIsWhite(gaps);
      TailFits(ts, gaps);
      NoMoreTokens(TokenText(ts[0]), KindOf(ts[0]), gaps[0], ts[1..], gaps[1..]);
    }
  }

  lemma TailIsWhite(gaps: seq<string>)
    requires gaps != [] && AllWhiteGaps(gaps)
    ensures AllWhite(gaps[0]) && AllWhiteGaps(gaps[1..])
  {
    hide AllWhite;
  }

  lemma NumberThenLetter(u: string, rest: string, v: string)
    requires IsRun(u, Number) && v != "" && v <= rest && IsLetter(v[0]) && !InRun(Number, v[0])
    ensures Lex(u + rest).Failure?
  {
    hide Lex, Str2Token;
    RunThenRest(u, Number, rest);
  }

  // Written-out tokens are read back if and only if they are parted: elsewhere an empty gap merges
  // them, fails, or leaves out the last.
  lemma LayoutReadsBackExactly(ts: seq<Token>, gaps: seq<string>)
    requires AllWhiteGaps(gaps) && |ts| == |gaps| && forall t <- ts :: Writable(t)
    ensures Lex(Layout(ts, gaps)) == Success(ts) <==> Fits(ts, gaps)
  {
    hide TokenText, Lex, Writable;
    LayoutHasNoMoreTokens(ts, gaps);
    if Fits(ts, gaps) {
      LayoutReadsBack(ts, gaps);
      if ts != [] {
        assert ts[|ts| - 1 + 1..] == [] && Parted(KindOf(ts[|ts| - 1]), gaps[|ts| - 1], ts[|ts| - 1 + 1..]);
      }
    }
  }

  lemma {:induction false} DigitsAreNonNegative(s: string)
    requires AllDigits(s)
    ensures DecimalValue(s) >= 0
  {
    if s != "" {
      DigitsAreNonNegative(s[..|s| - 1]);
    }
  }

  lemma RunIsWritable(run: string, st: State)
    requires run != "" && st in {Identifier, Operator, Number}
    requires TypeOf(run[0]).Success? && RunKind(TypeOf(run[0]).value) == st
    requires forall i :: 0 <= i < |run| ==> InRun(st, run[i])
    ensures Str2Token(run, st).Success? ==> Writable(Str2Token(run, st).value)
  {
    if st == Number {
      DigitsAreNonNegative(run);
    } else if st == Identifier {
      assert IsName(run);
    }
  }

  lemma {:induction false} LexedTokensAreWritable(s: string)
    ensures Lex(s).Success? ==> forall t <- Lex(s).value :: Writable(t)
    decreases |s|
  {
    hide Str2Token, Writable;
    if Lex(s).Success? && s != "" {
      if IsWhite(s[0]) {
        LexedTokensAreWritable(s[1..]);
      } else {
        var st := RunKind(TypeOf(s[0]).value);
        var k := RunLength(st, s);
        if k < |s| {
          LexedTokensAreWritable(s[k..]);
          RunIsWritable(s[..k], st);
        }
      }
    }
  }

  // ------------------------------------------------------------------ tokens are the maximal runs

  datatype Run = Run(start: nat, end: nat, kind: State)

  ghost predicate IsMaximalRun(s: string, r: Run) {
    && r.start < r.end <= |s|
    && r.kind in {Identifier, Operator, Number}
    && TypeOf(s[r.start]).Success? && RunKind(TypeOf(s[r.start]).value) == r.kind
    && (forall i :: r.start <= i < r.end ==> InRun(r.kind, s[i]))
    && (r.end < |s| ==> !InRun(r.kind, s[r.end]))
    && (r.start > 0 ==> !Touches(r.kind, s[r.start - 1]))
  }

  // From position `from` on, `s` is white space and the maximal runs `runs`, in order; all of them
  // but one that touches the end of `s` are classified by `ts`.
  ghost predicate Divides(s: string, from: nat, runs: seq<Run>, ts: seq<Token>)
    decreases |runs|
  {
    && from <= |s|
    && if runs == [] then ts == [] && AllWhite(s[from..])
       else
         var r := runs[0];
         && from <= r.start
         && IsMaximalRun(s, r)
         && AllWhite(s[from..r.start])
         && if r.end == |s| then |runs| == 1 && ts == []
            else
              && ts != []
              && Str2Token(s[r.start..r.end], r.kind) == Success(ts[0])
              && Divides(s, r.end, runs[1..], ts[1..])
  }

  // No run crosses position `from`.
  ghost predicate IsCut(s: string, from: nat) {
    0 < from < |s| ==>
      && (IsLetter(s[from]) || IsDigit(s[from]) ==> !Touches(Identifier, s[from - 1]))
      && (IsPunc(s[from]) ==> !Touches(Operator, s[from - 1]))
  }

  lemma MoreWhite(s: string, from: nat, runs: seq<Run>, ts: seq<Token>)
    requires from < |s| && IsWhite(s[from]) && Divides(s, from + 1, runs, ts)
    ensures Divides(s, from, runs, ts)
  {
    hide Str2Token;
    var end := if runs == [] then |s| else runs[0].start;
    var gap := s[from + 1..end];
    assert s[from..end] == [s[from]] + gap;
  }

  lemma {:induction false} LexDivides(s: string, from: nat) returns (runs: seq<Run>)
    requires from <= |s| && IsCut(s, from) && Lex(s[from..]).Success?
    ensures Divides(s, from, runs, Lex(s[from..]).value)
    decreases |s| - from
  {
    hide Str2Token;
    if from == |s| {
      runs := [];
    } else if IsWhite(s[from]) {
      LexFirst(s, from);
      runs := LexDivides(s, from + 1);
      MoreWhite(s, from, runs, Lex(s[from + 1..]).value);
    } else {
      runs := LexDividesAtRun(s, from);
    }
  }

  // The run that begins at a cut is maximal.
  lemma RunAtCut(s: string, from: nat) returns (r: Run)
    requires from < |s| && IsCut(s, from) && TypeOf(s[from]).Success? && !IsWhite(s[from])
    ensures r.start == from && IsMaximalRun(s, r)
  {
    var st := RunKind(TypeOf(s[from]).value);
    var end := from + RunLength(st, s[from..]);
    assert forall i :: from <= i < |s| ==> s[i] == s[from..][i - from];
    r := Run(from, end, st);
  }

  // What is lexed goes on at a cut.
  lemma LexedRunEndsAtCut(s: string, r: Run)
    requires IsMaximalRun(s, r) && Lex(s[r.start..]).Success? && r.end < |s|
    ensures IsCut(s, r.end) && Lex(s[r.end..]).Success?
  {
    hide Str2Token, Lex;
    RunEnds(s, r.kind, r.start, r.end);
    assert InRun(r.kind, s[r.end - 1]) && !InRun(r.kind, s[r.end]);
  }

  // A run in front of a division makes a division.
  lemma RunDivides(s: string, r: Run, more: seq<Run>, ts: seq<Token>)
    requires IsMaximalRun(s, r) && Lex(s[r.start..]) == Success(ts)
    requires r.end < |s| ==> Lex(s[r.end..]).Success? && Divides(s, r.end, more, Lex(s[r.end..]).value)
    ensures Divides(s, r.start, if r.end < |s| then [r] + more else [r], ts)
  {
    hide Str2Token, Lex;
    RunEnds(s, r.kind, r.start, r.end);
    assert s[r.start..r.start] == "";
    if r.end < |s| {
      var t, rest := Str2Token(s[r.start..r.end], r.kind), Lex(s[r.end..]);
      assert Success(ts) == Prepend([t.value], rest);
      assert ([r] + more)[1..] == more && ([t.value] + rest.value)[1..] == rest.value;
    }
  }

  lemma {:induction false} LexDividesAtRun(s: string, from: nat) returns (runs: seq<Run>)
    requires from < |s| && IsCut(s, from) && Lex(s[from..]).Success? && !IsWhite(s[from])
    ensures Divides(s, from, runs, Lex(s[from..]).value)
    decreases |s| - from, 0
  {
    hide Str2Token, Lex, IsMaximalRun, IsCut, Divides;
    LexFirst(s, from);
    var r := RunAtCut(s, from);
    StartsBeforeEnd(s, r);
    var more := [];
    if r.end < |s| {
      LexedRunEndsAtCut(s, r);
      more := LexDivides(s, r.end);
    }
    RunDivides(s, r, more, Lex(s[from..]).value);
    runs := if r.end < |s| then [r] + more else [r];
  }

  lemma StartsBeforeEnd(s: string, r: Run)
    requires IsMaximalRun(s, r)
    ensures r.start < r.end <= |s|
  {
  }

  lemma {:induction false} DivisionIsLexed(s: string, from: nat, runs: seq<Run>, ts: seq<Token>)
    requires Divides(s, from, runs, ts)
    ensures Lex(s[from..]) == Success(ts)
    decreases |runs|
  {
    hide Str2Token, Lex;
    if runs == [] {
      assert s[from..] + "" == s[from..] && s[|s|..] == "";
      LexSkipsWhite(s[from..], "");
      LexNothing(s);
    } else {
      var r := runs[0];
      assert s[from..] == s[from..r.start] + s[r.start..];
      LexSkipsWhite(s[from..r.start], s[r.start..]);
      if r.end < |s| {
        DivisionIsLexed(s, r.end, runs[1..], ts[1..]);
        if r.kind == Number {
          NoLetterBehindDigit(s, r.end, runs[1..], ts[1..]);
        }
      }
      RunIsLexed(s, r, ts);
    }
  }

  lemma RunIsLexed(s: string, r: Run, ts: seq<Token>)
    requires IsMaximalRun(s, r) && (r.end == |s| ==> ts == [])
    requires r.end < |s| ==>
      && ts != []
      && Str2Token(s[r.start..r.end], r.kind) == Success(ts[0])
      && Lex(s[r.end..]) == Success(ts[1..])
      && (r.kind == Number ==> !IsLetter(s[r.end]))
    ensures Lex(s[r.start..]) == Success(ts)
  {
    hide Str2Token, Lex;
    RunEnds(s, r.kind, r.start, r.end);
    if r.end < |s| {
      LexFirst(s, r.end);
      assert [ts[0]] + ts[1..] == ts;
    }
  }

  lemma NoLetterBehindDigit(s: string, at: nat, runs: seq<Run>, ts: seq<Token>)
    requires 0 < at < |s| && IsDigit(s[at - 1]) && Divides(s, at, runs, ts)
    ensures !IsLetter(s[at])
  {
    hide Str2Token;
    if runs == [] || runs[0].start > at {
      var gap := if runs == [] then s[at..] else s[at..runs[0].start];
      assert gap[0] == s[at] && IsWhite(gap[0]);
    }
  }

  // Tokenizing succeeds with `ts` exactly when the text divides into maximal runs that `ts` classifies.
  lemma TokensAreMaximalRuns(s: string, ts: seq<Token>)
    ensures Lex(s) == Success(ts) <==> exists runs :: Divides(s, 0, runs, ts)
  {
    hide Divides;
    assert s[0..] == s;
    if Lex(s) == Success(ts) {
      var runs := LexDivides(s, 0);
    }
    forall runs | Divides(s, 0, runs, ts) ensures Lex(s) == Success(ts) {
      DivisionIsLexed(s, 0, runs, ts);
    }
  }
}
