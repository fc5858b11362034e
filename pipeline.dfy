/**
 * The two stages composed on a small program: `tokenize` on the source text,
 * then `translate` on the tokens it returns.
 */
module Pipeline {
  import opened Lexer
  import opened LexerProperties
  import opened Translator
  import opened TranslatorProperties

  const Sample: string := "fn main() {\n    println!(\"hi\");\n}"

  const FnKeyword := Token(TokenType.Keyword, TokenValue.Keyword("fn"))
  const MainName := Token(TokenType.Identifier, TokenValue.Identifier("main"))
  const PrintlnCall := Token(Function, TokenValue.Identifier("println!"))
  const HiString := Token(String, StrValue("hi"))
  const Open := Token(LParen, NoValue)
  const Close := Token(RParen, NoValue)
  const OpenBrace := Token(LBrace, NoValue)
  const CloseBrace := Token(RBrace, NoValue)
  const Semi := Token(Semicolon, NoValue)

  const SampleTokens: seq<Token> :=
    [FnKeyword, MainName, Open, Close, OpenBrace, PrintlnCall, Open, HiString, Close, Semi, CloseBrace]

  const SampleOutput: string := "function main () {\nprint(\"hi\");\n}\nmain()"

  /** A word followed by one more character: the word lands in the buffer, then the character's arm runs. */
  lemma WordThenChar(s: Scan, w: string, c: char, f: string -> bool)
    requires forall i :: 0 <= i < |w| ==> Plain(w[i])
    ensures Run(s, w + [c], f) == Step(s.(buffer := s.buffer + w), c, f)
  {
    WordRun(s, w, f);
    RunSnoc(s, w, c, f);
  }

  lemma {:induction false} SpacesRun(s: Scan, w: string, f: string -> bool)
    requires !s.inString && s.buffer == []
    requires forall i :: 0 <= i < |w| ==> w[i] == ' '
    ensures Run(s, w, f) == s
    decreases |w|
  {
    if w != [] {
      SpacesRun(s, w[..|w| - 1], f);
    }
  }

  lemma FnLexes(f: string -> bool)
    ensures ParseToken("fn", f) == FnKeyword
  {
  }

  lemma MainLexes(f: string -> bool)
    requires !f("main")
    ensures ParseToken("main", f) == MainName
  {
    assert !IsDigit("main"[0]);
  }

  lemma PrintlnLexes(f: string -> bool)
    requires !f("println!")
    ensures ParseToken("println!", f) == PrintlnCall
  {
    assert !IsDigit("println!"[0]);
    assert "println!"[7] == '!';
  }

  // Each piece of the sample program, scanned after any tokens `pre`.

  lemma FnChunk(pre: seq<Token>, f: string -> bool)
    ensures Run(Scan(pre, [], false), "fn ", f) == Scan(pre + [FnKeyword], [], false)
  {
    FnLexes(f);
    WordThenChar(Scan(pre, [], false), "fn", ' ', f);
    assert [] + "fn" == "fn";
    assert "fn " == "fn" + [' '];
  }

  lemma MainChunk(pre: seq<Token>, f: string -> bool)
    requires !f("main")
    ensures Run(Scan(pre, [], false), "main(", f) == Scan(pre + [MainName, Open], [], false)
  {
    MainLexes(f);
    WordThenChar(Scan(pre, [], false), "main", '(', f);
    assert [] + "main" == "main";
    assert "main(" == "main" + ['('];
    assert pre + [MainName] + [Open] == pre + [MainName, Open];
  }

  lemma BraceChunk(pre: seq<Token>, f: string -> bool)
    ensures Run(Scan(pre, [], false), ") {\n    ", f) == Scan(pre + [Close, OpenBrace], [], false)
  {
    var s0 := Scan(pre, [], false);
    var s1 := Scan(pre + [Close], [], false);
    var s2 := Scan(pre + [Close] + [OpenBrace], [], false);
    RunSnoc(s0, [], ')', f);
    assert [] + [')'] == [')'];
    RunSnoc(s0, [')'], ' ', f);
    assert [')'] + [' '] == [')', ' '];
    assert Run(s0, [')', ' '], f) == s1;
    RunSnoc(s0, [')', ' '], '{', f);
    assert [')', ' '] + ['{'] == [')', ' ', '{'];
    RunSnoc(s0, [')', ' ', '{'], '\n', f);
    assert [')', ' ', '{'] + ['\n'] == [')', ' ', '{', '\n'];
    assert Run(s0, [')', ' ', '{', '\n'], f) == s2;
    RunAppend(s0, [')', ' ', '{', '\n'], "    ", f);
    SpacesRun(s2, "    ", f);
    assert ") {\n    " == [')', ' ', '{', '\n'] + "    ";
    assert pre + [Close] + [OpenBrace] == pre + [Close, OpenBrace];
  }

  lemma CallNameChunk(pre: seq<Token>, f: string -> bool)
    requires !f("println!")
    ensures Run(Scan(pre, [], false), "println!(", f) == Scan(pre + [PrintlnCall, Open], [], false)
  {
    PrintlnLexes(f);
    WordThenChar(Scan(pre, [], false), "println!", '(', f);
    assert [] + "println!" == "println!";
    assert "println!(" == "println!" + ['('];
    assert pre + [PrintlnCall] + [Open] == pre + [PrintlnCall, Open];
  }

  lemma CallChunk(pre: seq<Token>, f: string -> bool)
    requires !f("println!")
    ensures Run(Scan(pre, [], false), "println!(\"", f) == Scan(pre + [PrintlnCall, Open], [], true)
  {
    CallNameChunk(pre, f);
    RunSnoc(Scan(pre, [], false), "println!(", '"', f);
    assert "println!(\"" == "println!(" + ['"'];
  }

  lemma StringChunk(pre: seq<Token>, f: string -> bool)
    ensures Run(Scan(pre, [], true), "hi\")", f) == Scan(pre + [HiString, Close], [], false)
  {
    var s0 := Scan(pre, [], true);
    WordThenChar(s0, "hi", '"', f);
    assert [] + "hi" == "hi";
    RunSnoc(s0, "hi\"", ')', f);
    assert "hi\")" == "hi" + ['"'] + [')'];
    assert pre + [HiString] + [Close] == pre + [HiString, Close];
  }

  lemma EndChunk(pre: seq<Token>, f: string -> bool)
    ensures Run(Scan(pre, [], false), ";\n}", f) == Scan(pre + [Semi, CloseBrace], [], false)
  {
    var s0 := Scan(pre, [], false);
    RunSnoc(s0, [], ';', f);
    assert [] + [';'] == [';'];
    RunSnoc(s0, [';'], '\n', f);
    assert [';'] + ['\n'] == [';', '\n'];
    RunSnoc(s0, [';', '\n'], '}', f);
    assert ";\n}" == [';', '\n'] + ['}'];
    assert pre + [Semi] + [CloseBrace] == pre + [Semi, CloseBrace];
  }

  /** The sample program, cut where the scanner's buffer is empty. */
  lemma SampleChunks()
    ensures Sample == "fn " + "main(" + ") {\n    " + "println!(\"" + "hi\")" + ";\n}"
  {
  }

  /** The sample program lexes to the eleven tokens above. */
  lemma SampleLexes(f: string -> bool)
    requires !f("main") && !f("println!")
    ensures Tokens(Sample, f) == SampleTokens
  {
    var c1, c2, c3, c4, c5, c6 := "fn ", "main(", ") {\n    ", "println!(\"", "hi\")", ";\n}";
    var t1 := [FnKeyword];
    var t2 := [FnKeyword, MainName, Open];
    var t3 := [FnKeyword, MainName, Open, Close, OpenBrace];
    var t4 := [FnKeyword, MainName, Open, Close, OpenBrace, PrintlnCall, Open];
    var t5 := [FnKeyword, MainName, Open, Close, OpenBrace, PrintlnCall, Open, HiString, Close];
    assert [] + [FnKeyword] == t1;
    assert t1 + [MainName, Open] == t2;
    assert t2 + [Close, OpenBrace] == t3;
    assert t3 + [PrintlnCall, Open] == t4;
    assert t4 + [HiString, Close] == t5;
    assert t5 + [Semi, CloseBrace] == SampleTokens;
    FnChunk([], f);
    assert Start == Scan([], [], false);
    MainChunk(t1, f);
    RunAppend(Start, c1, c2, f);
    BraceChunk(t2, f);
    RunAppend(Start, c1 + c2, c3, f);
    CallChunk(t3, f);
    RunAppend(Start, c1 + c2 + c3, c4, f);
    StringChunk(t4, f);
    RunAppend(Start, c1 + c2 + c3 + c4, c5, f);
    EndChunk(t5, f);
    RunAppend(Start, c1 + c2 + c3 + c4 + c5, c6, f);
    SampleChunks();
  }

  lemma ParametersRender()
    ensures Rendered([Open, Close, OpenBrace], false) == "() {\n"
  {
    var s3 := [OpenBrace];
    RenderedCons(OpenBrace, [], false);
    assert s3 == [OpenBrace] + [];
    assert Rendered(s3, false) == "{\n";
    var s2 := [Close] + s3;
    RenderedCons(Close, s3, false);
    assert Rendered(s2, false) == ") {\n";
    var s1 := [Open] + s2;
    RenderedCons(Open, s2, false);
    assert s1 == [Open, Close, OpenBrace];
  }

  lemma SignatureRenders()
    ensures Rendered([MainName, Open, Close, OpenBrace], false) == "main () {\n"
  {
    var rest := [Open, Close, OpenBrace];
    ParametersRender();
    RenderedCons(MainName, rest, false);
    assert [MainName] + rest == [MainName, Open, Close, OpenBrace];
  }

  lemma HeadRenders()
    ensures Rendered([FnKeyword, MainName, Open, Close, OpenBrace], false) == "function main () {\n"
  {
    var rest := [MainName, Open, Close, OpenBrace];
    SignatureRenders();
    RenderedCons(FnKeyword, rest, false);
    assert [FnKeyword] + rest == [FnKeyword, MainName, Open, Close, OpenBrace];
  }

  lemma HeadLeavesNoCallOpen()
    ensures !CallingAfterAll([FnKeyword, MainName, Open, Close, OpenBrace], false)
  {
    var head := [FnKeyword, MainName, Open, Close, OpenBrace];
    CallFlagMeansOpenCall(head);
    forall j | 0 <= j < |head|
      ensures head[j].kind != Function
    {
    }
  }

  /** The sample output, line by line. */
  lemma SampleOutputLines()
    ensures SampleOutput == "function main () {\n" + "print(\"hi\");\n}\n" + "main()"
  {
  }

  /** The header of `main` and its body render separately: no call is open between them. */
  lemma SampleRenders()
    ensures SemicolonNotLast([FnKeyword, MainName, Open, Close, OpenBrace] + [PrintlnCall, Open, HiString, Close, Semi, CloseBrace])
    ensures Rendered([FnKeyword, MainName, Open, Close, OpenBrace] + [PrintlnCall, Open, HiString, Close, Semi, CloseBrace], false)
            == "function main () {\n" + "print(\"hi\");\n}\n"
  {
    PrintlnExample();
    HeadRenders();
    HeadLeavesNoCallOpen();
    RenderedAppend([FnKeyword, MainName, Open, Close, OpenBrace], [PrintlnCall, Open, HiString, Close, Semi, CloseBrace], false);
  }

  /** The sample tokens translate to the sample output. */
  lemma SampleTranslates()
    ensures SemicolonNotLast(SampleTokens)
    ensures Rendered(SampleTokens, false) + Epilogue == SampleOutput
  {
    SampleRenders();
    assert SampleTokens == [FnKeyword, MainName, Open, Close, OpenBrace] + [PrintlnCall, Open, HiString, Close, Semi, CloseBrace];
    SampleOutputLines();
  }

  /** A source ending in `;` lexes to tokens the translator cannot take: its last token is a Semicolon. */
  lemma TrailingSemicolon(f: string -> bool)
    ensures !SemicolonNotLast(Tokens("x;", f))
  {
    WordRun(Start, "x", f);
    RunSnoc(Start, "x", ';', f);
    assert "x;" == "x" + [';'];
  }
}
