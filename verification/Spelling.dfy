/**
  How the sim^2 language is spelled, told in characters: what is white space, which characters are
  refused, which words, signs and constants there are and what follows a number.
 */
module Spelling {
  import opened Results
  import opened Lexer

  // ------------------------------------------------------------------ white space

  lemma {:induction false} EndedBySpace(a: string, w: char)
    requires IsWhite(w)
    ensures Lex(a + [w]) == Lex(a + " ")
    decreases |a|
  {
    hide Str2Token, RunKind, AfterRun;
    if a == "" {
      assert (a + [w])[1..] == "" && (a + " ")[1..] == "";
    } else if TypeOf(a[0]).Success? {
      if IsWhite(a[0]) {
        assert (a + [w])[1..] == a[1..] + [w] && (a + " ")[1..] == a[1..] + " ";
        EndedBySpace(a[1..], w);
      } else {
        var k := RunLength(RunKind(TypeOf(a[0]).value), a);
        StartsRun(a, k);
        EndedBySpace(a[k..], w);
        RunAhead(a, w, k);
        RunAhead(a, ' ', k);
      }
    }
  }

  lemma StartsRun(a: string, k: nat)
    requires a != "" && TypeOf(a[0]).Success? && !IsWhite(a[0]) && k == RunLength(RunKind(TypeOf(a[0]).value), a)
    ensures 0 < k
  {
  }

  lemma FirstRun(a: string, k: nat)
    requires a != "" && TypeOf(a[0]).Success? && !IsWhite(a[0])
    requires 0 < k == RunLength(RunKind(TypeOf(a[0]).value), a)
    ensures IsRun(a[..k], RunKind(TypeOf(a[0]).value))
  {
    hide RunLength;
  }

  lemma WhiteEndsRun(st: State, w: char)
    requires IsWhite(w)
    ensures !InRun(st, w)
  {
  }

  lemma AnyWhiteEndsRun(st: State, run: string, w: char, rest: LexResult)
    requires IsWhite(w)
    ensures AfterRun(st, run, w, rest) == AfterRun(st, run, ' ', rest)
  {
    hide Str2Token;
  }

  // The first run of a text, and what comes behind it, with white space at the end.
  lemma RunAhead(a: string, w: char, k: nat)
    requires IsWhite(w) && a != "" && TypeOf(a[0]).Success? && !IsWhite(a[0])
    requires 0 < k == RunLength(RunKind(TypeOf(a[0]).value), a)
    ensures Lex(a + [w]) ==
      AfterRun(RunKind(TypeOf(a[0]).value), a[..k], if k < |a| then a[k] else ' ', Lex(a[k..] + [w]))
  {
    hide *;
    var st, run, rest := RunKind(TypeOf(a[0]).value), a[..k], a[k..] + [w];
    FirstRun(a, k);
    WhiteEndsRun(st, w);
    RunThenRest(run, st, rest);
    AnyWhiteEndsRun(st, run, w, Lex(rest));
    assert a + [w] == run + rest;
  }

  // Tabs, line feeds, carriage returns and form feeds are as good as spaces, wherever they stand.
  lemma WhiteSpaceIsAlike(a: string, w: char, b: string)
    requires w in {' ', '\t', '\n', '\r', '\U{000C}'}
    ensures Lex(a + [w] + b) == Lex(a + " " + b)
  {
    EndedBySpace(a, w);
    LexSplitsAtWhite(a, w, b);
    LexSplitsAtWhite(a, ' ', b);
  }

  // ------------------------------------------------------------------ characters that are refused

  // Neither white space, nor an ASCII letter or digit, nor one of the five signs.
  predicate Strange(c: char) {
    && c !in {' ', '\t', '\n', '\r', '\U{000C}', '(', ')', '<', '>', '='}
    && !('a' <= c <= 'z') && !('A' <= c <= 'Z') && !('0' <= c <= '9')
  }

  lemma StrangeHasNoType(c: char)
    ensures TypeOf(c) == Failure(InvalidCharType) <==> Strange(c)
    ensures TypeOf(c).Failure? <==> Strange(c)
  {
  }

  // A strange character is noticed as soon as it is read: errors in front of it come first.
  lemma {:induction false} StrangeStops(a: string, c: char, b: string)
    requires Strange(c) && forall i :: 0 <= i < |a| ==> !Strange(a[i])
    ensures Lex(a + [c] + b) == if Lex(a).Success? then Failure(InvalidCharType) else Lex(a)
    decreases |a|
  {
    hide Str2Token;
    var s := a + [c] + b;
    if a != "" {
      StrangeHasNoType(a[0]);
      if IsWhite(a[0]) {
        assert s[1..] == a[1..] + [c] + b;
        StrangeStops(a[1..], c, b);
      } else {
        var st := RunKind(TypeOf(a[0]).value);
        var k := RunLength(st, s);
        assert k <= |a| by { assert !InRun(st, s[|a|]); }
        assert forall i :: 0 <= i < |a| ==> s[i] == a[i];
        RunLengthIs(st, a, k);
        assert s[k..] == a[k..] + [c] + b && (k < |a| ==> s[..k] == a[..k]);
        if k < |a| {
          StrangeStops(a[k..], c, b);
        }
      }
    }
  }

  lemma {:induction false} NothingStrange(s: string)
    requires forall i :: 0 <= i < |s| ==> !Strange(s[i])
    ensures Lex(s) != Failure(InvalidCharType)
    decreases |s|
  {
    if s != "" {
      StrangeHasNoType(s[0]);
      if IsWhite(s[0]) {
        NothingStrange(s[1..]);
      } else {
        var st := RunKind(TypeOf(s[0]).value);
        var k := RunLength(st, s);
        if k < |s| {
          StrangeHasNoType(s[k]);
          NothingStrange(s[k..]);
        }
      }
    }
  }

  // A text is refused for a character exactly if it has a strange one, and what stands before the
  // first of them is not refused.
  lemma RefusedForCharacter(s: string)
    ensures Lex(s) == Failure(InvalidCharType) <==>
      exists i :: 0 <= i < |s| && Strange(s[i]) && (forall j :: 0 <= j < i ==> !Strange(s[j])) && Lex(s[..i]).Success?
  {
    hide Lex;
    if exists i :: 0 <= i < |s| && Strange(s[i]) {
      var i := FirstStrange(s);
      assert s == s[..i] + [s[i]] + s[i + 1..];
      StrangeStops(s[..i], s[i], s[i + 1..]);
      NothingStrange(s[..i]);
    } else {
      NothingStrange(s);
    }
  }

  lemma FirstStrange(s: string) returns (i: nat)
    requires exists i :: 0 <= i < |s| && Strange(s[i])
    ensures i < |s| && Strange(s[i]) && forall j :: 0 <= j < i ==> !Strange(s[j])
  {
    i := 0;
    while !Strange(s[i])
      invariant i < |s| && forall j :: 0 <= j < i ==> !Strange(s[j])
      decreases |s| - i
    {
      i := i + 1;
    }
  }

  // ------------------------------------------------------------------ words and signs

  // What a text is read as, if a space follows.
  function Word(s: string): LexResult {
    Lex(s + " ")
  }

  lemma WordOf(t: Token, s: string)
    requires Writable(t) && TokenText(t) == s
    ensures Word(s) == Success([t])
  {
    TokenReadsBack(t, ' ');
  }

  lemma FrameWords()
    ensures Word("sim") == Success([Sim]) && Word("end") == Success([End]) && Word("block") == Success([Block])
  {
    hide Word, ProcessIdentifier, Lex;
    WordOf(Sim, "sim"); WordOf(End, "end"); WordOf(Block, "block");
  }

  lemma ChoiceWords()
    ensures Word("if") == Success([If]) && Word("then") == Success([Then]) && Word("else") == Success([Else])
  {
    hide Word, ProcessIdentifier, Lex;
    WordOf(If, "if"); WordOf(Then, "then"); WordOf(Else, "else");
  }

  lemma ActionWords()
    ensures Word("move") == Success([Move]) && Word("hunt") == Success([Hunt]) && Word("rest") == Success([Rest])
    ensures Word("breed") == Success([Breed])
  {
    hide Word, ProcessIdentifier, Lex;
    WordOf(Move, "move"); WordOf(Hunt, "hunt"); WordOf(Rest, "rest"); WordOf(Breed, "breed");
  }

  lemma ValueWords()
    ensures Word("add") == Success([Add]) && Word("sub") == Success([Sub]) && Word("rand") == Success([Rand])
    ensures Word("energy") == Success([IdEnergy]) && Word("awakeDaily") == Success([IdRest])
  {
    hide Word, ProcessIdentifier, Lex;
    WordOf(Add, "add"); WordOf(Sub, "sub"); WordOf(Rand, "rand");
    WordOf(IdEnergy, "energy"); WordOf(IdRest, "awakeDaily");
  }

  lemma StraightDirections()
    ensures Word("N") == Success([DirN]) && Word("E") == Success([DirE]) && Word("S") == Success([DirS])
    ensures Word("W") == Success([DirW])
  {
    hide Word, ProcessIdentifier, Lex;
    WordOf(DirN, "N"); WordOf(DirE, "E"); WordOf(DirS, "S"); WordOf(DirW, "W");
  }

  lemma SlantingDirections()
    ensures Word("NE") == Success([DirNE]) && Word("SE") == Success([DirSE]) && Word("SW") == Success([DirSW])
    ensures Word("NW") == Success([DirNW])
  {
    hide Word, ProcessIdentifier, Lex;
    WordOf(DirNE, "NE"); WordOf(DirSE, "SE"); WordOf(DirSW, "SW"); WordOf(DirNW, "NW");
  }

  lemma Signs()
    ensures Word("(") == Success([Lpar]) && Word(")") == Success([Rpar])
    ensures Word("<") == Success([Lt]) && Word(">") == Success([Gt])
    ensures Word("=") == Success([OneEq]) && Word("==") == Success([TwoEq])
  {
    hide Word;
    WordOf(Lpar, "("); WordOf(Rpar, ")"); WordOf(Lt, "<"); WordOf(Gt, ">");
    WordOf(OneEq, "="); WordOf(TwoEq, "==");
  }

  predicate LetterOrDigit(c: char) {
    'a' <= c <= 'z' || 'A' <= c <= 'Z' || '0' <= c <= '9'
  }

  // Any other word that begins with a letter and goes on with letters and digits is a name.
  lemma Names(s: string)
    requires s != "" && !('0' <= s[0] <= '9') && forall i :: 0 <= i < |s| ==> LetterOrDigit(s[i])
    requires s !in {"sim", "end", "block", "if", "then", "else", "move", "hunt", "rest", "breed", "add", "sub", "rand"}
    requires s !in {"energy", "awakeDaily", "N", "NE", "E", "SE", "S", "SW", "W", "NW"}
    ensures Word(s) == Success([Id(s)])
  {
    WordOf(Id(s), s);
  }

  // Any other run of signs is refused, whatever follows.
  lemma OtherSigns(s: string, c: char, b: string)
    requires s != "" && s !in {"(", ")", "<", ">", "=", "=="}
    requires forall i :: 0 <= i < |s| ==> s[i] in {'(', ')', '<', '>', '='}
    requires !Strange(c) && c !in {'(', ')', '<', '>', '='}
    ensures Lex(s + [c] + b) == Failure(InvalidOperatorString)
  {
    StrangeHasNoType(c);
    assert s + [c] + b == s + ([c] + b);
    LexOneRun(s, Operator, [c] + b);
  }

  // ------------------------------------------------------------------ constants

  lemma OneDigit(c: char)
    requires '0' <= c <= '9'
    ensures Word([c]) == Success([Int(c as int - 48)])
  {
    var run := [c];
    DigitsAre(run);
    assert run[..0] == "" && DecimalValue("") == 0;
    assert DecimalValue(run) == c as int - 48;
  }

  // A run of digits is its decimal value, if that is not too large.
  lemma DigitsAre(s: string)
    requires s != "" && AllDigits(s)
    ensures DecimalValue(s) >= 0
    ensures Word(s) ==
      if DecimalValue(s) <= 0x7fff_ffff then Success([Int(DecimalValue(s))]) else Failure(ParseNumberError)
  {
    DigitsAreNonNegative(s);
    LexOneRun(s, Number, " ");
    assert [Int(DecimalValue(s))] + [] == [Int(DecimalValue(s))];
    assert Lex(" ") == Success([]) by { LexSkipsWhite(" ", ""); assert " " + "" == " "; }
  }

  // One more digit at the end makes the tenfold and adds the digit, up to the largest signed 32-bit
  // integer; beyond that the number is refused, with any more digits.
  lemma MoreDigits(s: string, c: char)
    requires s != "" && (forall i :: 0 <= i < |s| ==> '0' <= s[i] <= '9') && '0' <= c <= '9'
    ensures Word(s).Success? ==> |Word(s).value| == 1 && Word(s).value[0].Int?
    ensures Word(s + [c]) ==
      if Word(s).Success? && 10 * Word(s).value[0].val + (c as int - 48) <= 2147483647
      then Success([Int(10 * Word(s).value[0].val + (c as int - 48))])
      else Failure(ParseNumberError)
  {
    hide Word;
    DigitsAre(s);
    DigitsAre(s + [c]);
    assert (s + [c])[..|s|] == s;
  }

  // A letter right behind a number is refused.
  lemma LetterBehindNumber(s: string, c: char, b: string)
    requires s != "" && forall i :: 0 <= i < |s| ==> '0' <= s[i] <= '9'
    requires 'a' <= c <= 'z' || 'A' <= c <= 'Z'
    ensures Lex(s + [c] + b) == Failure(InvalidTransition)
  {
    assert s + [c] + b == s + ([c] + b);
    RunThenRest(s, Number, [c] + b);
  }

  // ------------------------------------------------------------------ where space is not needed

  predicate IsSign(c: char) {
    c in {'(', ')', '<', '>', '='}
  }

  // Between a sign and a letter or digit, either way round, space makes no difference.
  lemma {:induction false} SpaceIsOptional(a: string, b: string)
    requires a != "" && b != ""
    requires (IsSign(a[|a| - 1]) && LetterOrDigit(b[0])) || (LetterOrDigit(a[|a| - 1]) && IsSign(b[0]))
    ensures Lex(a + b) == Lex(a + " " + b)
    decreases |a|
  {
    hide Lex, Str2Token, RunKind, AfterRun, RunLength;
    assert (a + b)[0..] == a + b && (a + " " + b)[0..] == a + " " + b;
    LexFirst(a + b, 0);
    LexFirst(a + " " + b, 0);
    if TypeOf(a[0]).Success? {
      if IsWhite(a[0]) {
        assert (a + b)[1..] == a[1..] + b && (a + " " + b)[1..] == a[1..] + " " + b;
        SpaceIsOptional(a[1..], b);
      } else {
        var k := RunLength(RunKind(TypeOf(a[0]).value), a);
        StartsRun(a, k);
        FirstRun(a, k);
        if k < |a| {
          SpaceIsOptional(a[k..], b);
          assert a[k..] + " " + b == a[k..] + (" " + b);
          RunBefore(a, k, b);
          RunBefore(a, k, " " + b);
          assert a + (" " + b) == a + " " + b;
        } else {
          assert a[..k] == a;
          RunMeets(a, RunKind(TypeOf(a[0]).value), b);
        }
      }
    }
  }

  // The first run of a text that goes on behind it.
  lemma RunBefore(a: string, k: nat, b: string)
    requires a != "" && TypeOf(a[0]).Success? && !IsWhite(a[0])
    requires 0 < k == RunLength(RunKind(TypeOf(a[0]).value), a) && k < |a|
    ensures Lex(a + b) == AfterRun(RunKind(TypeOf(a[0]).value), a[..k], a[k], Lex(a[k..] + b))
  {
    hide *;
    FirstRun(a, k);
    RunThenRest(a[..k], RunKind(TypeOf(a[0]).value), a[k..] + b);
    assert a + b == a[..k] + (a[k..] + b);
  }

  // A run that ends in front of a sign, or of a letter or digit.
  lemma RunMeets(run: string, st: State, b: string)
    requires IsRun(run, st) && b != ""
    requires (IsSign(run[|run| - 1]) && LetterOrDigit(b[0])) || (LetterOrDigit(run[|run| - 1]) && IsSign(b[0]))
    ensures Lex(run + b) == Lex(run + " " + b)
  {
    hide Str2Token, Lex;
    assert InRun(st, run[|run| - 1]);
    assert run + " " + b == run + (" " + b);
    LexOneRun(run, st, b);
    LexOneRun(run, st, " " + b);
    LexSkipsWhite(" ", b);
  }
}
