/**
 * Properties of the lexer model: the scanner is a left fold, newlines are
 * ignored, quotes toggle the string flag, every token is well formed, the
 * token count is bounded by the input length, extra spaces between tokens do
 * not matter, and the classifier is stable under re-lexing a token's text.
 */
module LexerProperties {
  import opened Wrappers
  import opened Lexer

  // ---------------------------------------------------------------------------
  // The scan composes over concatenated input

  lemma {:induction false} RunAppend(s: Scan, p: string, q: string, f: string -> bool)
    ensures Run(s, p + q, f) == Run(Run(s, p, f), q, f)
    decreases |q|
  {
    if q == [] {
      assert p + q == p;
    } else {
      var q' := q[..|q| - 1];
      assert (p + q)[..|p + q| - 1] == p + q';
      assert (p + q)[|p + q| - 1] == q[|q| - 1];
      RunAppend(s, p, q', f);
    }
  }

  // ---------------------------------------------------------------------------
  // One character at a time: the arms of the scanning loop

  /** Outside a string a bracket flushes and appends its own token; inside, it is text. */
  lemma DelimiterStep(s: Scan, c: char, f: string -> bool)
    requires IsDelimiter(c)
    ensures !s.inString ==>
      Step(s, c, f) == Scan(Flush(s, f).tokens + [Token(DelimiterKind(c), NoValue)], [], false)
    ensures s.inString ==> Step(s, c, f) == s.(buffer := s.buffer + [c])
  {
  }

  /** A `;` flushes and appends a Semicolon in either state and keeps the string flag. */
  lemma SemicolonStep(s: Scan, f: string -> bool)
    ensures Step(s, ';', f) == Scan(Flush(s, f).tokens + [Token(Semicolon, NoValue)], [], s.inString)
  {
  }

  /**
   * A quote toggles the string flag; a closing quote emits the buffer as a
   * String token only when the buffer is non-empty; the quote itself is dropped.
   */
  lemma QuoteStep(s: Scan, c: char, f: string -> bool)
    requires IsQuote(c)
    ensures Step(s, c, f).inString == !s.inString
    ensures s.inString && s.buffer != [] ==>
      Step(s, c, f).tokens == s.tokens + [Token(String, StrValue(s.buffer))] && Step(s, c, f).buffer == []
    ensures !(s.inString && s.buffer != []) ==>
      Step(s, c, f).tokens == s.tokens && Step(s, c, f).buffer == s.buffer
  {
  }

  // ---------------------------------------------------------------------------
  // Newlines are ignored

  function WithoutNewlines(s: string): (r: string)
    ensures |r| <= |s|
    ensures forall i :: 0 <= i < |r| ==> r[i] != '\n'
  {
    if s == [] then []
    else WithoutNewlines(s[..|s| - 1]) + (if s[|s| - 1] == '\n' then [] else [s[|s| - 1]])
  }

  lemma {:induction false} RunIgnoresNewlines(s: Scan, x: string, f: string -> bool)
    ensures Run(s, WithoutNewlines(x), f) == Run(s, x, f)
    decreases |x|
  {
    if x != [] {
      var x', c := x[..|x| - 1], x[|x| - 1];
      RunIgnoresNewlines(s, x', f);
      var w := WithoutNewlines(x');
      assert Run(s, x, f) == Step(Run(s, x', f), c, f);
      if c == '\n' {
        assert WithoutNewlines(x) == w + [];
        assert w + [] == w;
      } else {
        assert WithoutNewlines(x) == w + [c];
        assert (w + [c])[..|w + [c]| - 1] == w;
        assert Run(s, w + [c], f) == Step(Run(s, w, f), c, f);
      }
    }
  }

  /** Removing every newline from the input leaves the token list unchanged. */
  lemma NewlinesIgnored(input: string, f: string -> bool)
    ensures Tokens(WithoutNewlines(input), f) == Tokens(input, f)
  {
    RunIgnoresNewlines(Start, input, f);
  }

  // ---------------------------------------------------------------------------
  // The string flag is the parity of the quotes seen

  function QuoteCount(s: string): nat
    ensures QuoteCount(s) <= |s|
  {
    if s == [] then 0 else QuoteCount(s[..|s| - 1]) + (if IsQuote(s[|s| - 1]) then 1 else 0)
  }

  lemma {:induction false} StringFlagIsQuoteParity(s: Scan, x: string, f: string -> bool)
    ensures Run(s, x, f).inString == (s.inString != (QuoteCount(x) % 2 == 1))
    decreases |x|
  {
    if x != [] {
      StringFlagIsQuoteParity(s, x[..|x| - 1], f);
    }
  }

  // ---------------------------------------------------------------------------
  // Every emitted token is well formed

  /** A character that can never reach a buffer: it is consumed by its own arm of the loop. */
  predicate Clean(c: char) { c != ';' && !IsQuote(c) && c != '\n' }

  predicate CleanText(s: string) { s != [] && forall i :: 0 <= i < |s| ==> Clean(s[i]) }

  /**
   * What every token of `tokenize` satisfies: its payload tag matches its kind,
   * a Keyword is one of `if`, `fn`, `let`, `else` (never `true` or `false`),
   * and every text payload is non-empty and free of `;`, quotes and newlines.
   */
  predicate Lexed(t: Token) {
    && WellTagged(t)
    && (t.kind == TokenType.Keyword ==> t.value.text in {"if", "fn", "let", "else"})
    && (t.value.StrValue? || t.value.Identifier? || t.value.Keyword? ==> CleanText(t.value.text))
    && (t.value.FloatValue? ==> CleanText(t.value.literal))
  }

  predicate ScanOk(s: Scan) {
    && (forall t :: t in s.tokens ==> Lexed(t))
    && (forall i :: 0 <= i < |s.buffer| ==> Clean(s.buffer[i]))
  }

  lemma FlushOk(s: Scan, f: string -> bool)
    requires ScanOk(s)
    ensures ScanOk(Flush(s, f)) && Flush(s, f).buffer == []
  {
    if s.buffer != [] {
      var t := ParseToken(s.buffer, f);
      assert Lexed(t);
    }
  }

  lemma StepOk(s: Scan, c: char, f: string -> bool)
    requires ScanOk(s)
    ensures ScanOk(Step(s, c, f))
  {
    FlushOk(s, f);
    if IsQuote(c) && s.inString && s.buffer != [] {
      assert Lexed(Token(String, StrValue(s.buffer)));
    }
  }

  lemma {:induction false} RunOk(s: Scan, x: string, f: string -> bool)
    requires ScanOk(s)
    ensures ScanOk(Run(s, x, f))
    decreases |x|
  {
    if x != [] {
      RunOk(s, x[..|x| - 1], f);
      StepOk(Run(s, x[..|x| - 1], f), x[|x| - 1], f);
    }
  }

  /** Every token `tokenize` returns is well formed. */
  lemma TokensLexed(input: string, f: string -> bool)
    ensures forall t :: t in Tokens(input, f) ==> Lexed(t)
  {
    RunOk(Start, input, f);
    FlushOk(Run(Start, input, f), f);
  }

  // ---------------------------------------------------------------------------
  // Each token consumes at least one input character

  lemma {:induction false} RunSize(s: Scan, x: string, f: string -> bool)
    ensures |Run(s, x, f).tokens| + |Run(s, x, f).buffer| <= |s.tokens| + |s.buffer| + |x|
    decreases |x|
  {
    if x != [] {
      RunSize(s, x[..|x| - 1], f);
    }
  }

  /** There are never more tokens than input characters. */
  lemma TokenCount(input: string, f: string -> bool)
    ensures |Tokens(input, f)| <= |input|
  {
    RunSize(Start, input, f);
  }

  // ---------------------------------------------------------------------------
  // Extra spaces between tokens change nothing

  /** Outside a string and with nothing pending, a space may be inserted freely. */
  lemma SpaceBetweenTokens(p: string, q: string, f: string -> bool)
    requires !Run(Start, p, f).inString && Run(Start, p, f).buffer == []
    ensures Tokens(p + [' '] + q, f) == Tokens(p + q, f)
  {
    RunAppend(Start, p + [' '], q, f);
    RunAppend(Start, p, [' '], f);
    RunAppend(Start, p, q, f);
    assert [' '][..0] == [];
  }

  /** Outside a string, spaces around a bracket or a `;` change nothing. */
  lemma SpaceAroundDelimiter(p: string, c: char, q: string, f: string -> bool)
    requires !Run(Start, p, f).inString
    requires IsDelimiter(c) || c == ';'
    ensures Tokens(p + [' ', c, ' '] + q, f) == Tokens(p + [c] + q, f)
  {
    var s := Run(Start, p, f);
    RunAppend(Start, p + [' ', c, ' '], q, f);
    RunAppend(Start, p, [' ', c, ' '], f);
    RunAppend(Start, p + [c], q, f);
    RunAppend(Start, p, [c], f);
    assert [' ', c, ' '][..2] == [' ', c];
    assert [' ', c][..1] == [' '];
    assert [' '][..0] == [] && [c][..0] == [];
    assert Run(s, [' '], f) == Flush(s, f);
    assert Step(Flush(s, f), c, f) == Step(s, c, f);
  }

  // ---------------------------------------------------------------------------
  // Classification is stable: re-lexing a token's text gives the same token

  /** The text a token stands for: its payload, with an i32 printed in decimal. */
  function Spelling(t: Token): string
  {
    match t.value
    case StrValue(s) => s
    case IntValue(n) => FormatI32(n)
    case FloatValue(s) => s
    case BoolValue(b) => if b then "true" else "false"
    case Identifier(s) => s
    case Keyword(s) => s
    case NoValue => ""
  }

  lemma {:induction false} DigitsValue(n: nat)
    ensures Digits(n) != [] && AllDigits(Digits(n)) && DecimalValue(Digits(n)) == n
    decreases n
  {
    if n >= 10 {
      DigitsValue(n / 10);
      var d := Digits(n / 10) + [DigitChar(n % 10)];
      assert d[..|d| - 1] == Digits(n / 10);
    }
  }

  /** Printing an i32 and parsing it back gives the same value. */
  lemma ParseFormat(n: i32)
    ensures ParseI32(FormatI32(n)) == Some(n)
  {
    if n < 0 {
      DigitsValue(-(n as int));
      assert FormatI32(n)[1..] == Digits(-(n as int));
    } else {
      DigitsValue(n as int);
    }
  }

  /** The decimal form of an i32 starts with `-` or a digit. */
  lemma FormatStart(n: i32)
    ensures FormatI32(n) != [] && (FormatI32(n)[0] == '-' || IsDigit(FormatI32(n)[0]))
  {
    DigitsValue(if n < 0 then -(n as int) else n as int);
  }

  /** No keyword starts with `-` or a digit. */
  lemma KeywordStart(s: string)
    requires s != [] && (s[0] == '-' || IsDigit(s[0]))
    ensures s !in Keywords
  {
  }

  /**
   * `parse_token` keeps the text of every Boolean, Keyword, Function and
   * Identifier token, and classifying a token's text again (an Integer's in
   * decimal form) gives the same token. Float tokens are not covered: the
   * source's payload is an f32, whose printed form need not be the text.
   */
  lemma ReclassifySpelling(text: string, f: string -> bool)
    ensures ParseToken(text, f).kind !in {Integer, Float} ==> Spelling(ParseToken(text, f)) == text
    ensures ParseToken(text, f).kind != Float ==> ParseToken(Spelling(ParseToken(text, f)), f) == ParseToken(text, f)
  {
    var t := ParseToken(text, f);
    if t.kind == Integer {
      var n := t.value.number;
      ParseFormat(n);
      FormatStart(n);
      KeywordStart(FormatI32(n));
      assert FormatI32(n) != "true" && FormatI32(n) != "false";
    }
  }

  // ---------------------------------------------------------------------------
  // The i32 boundary and sign cases of Rust's parser

  /**
   * Every text of the accepted shape — no sign, `+` or `-`, then at least one
   * digit — parses to its signed decimal value when that fits an i32, and is
   * refused otherwise. With the `ensures` of `ParseI32`, which say a result
   * needs this shape, this pins down the parse of every text.
   */
  lemma SignedDigits(sign: string, d: string)
    requires sign == "" || sign == "+" || sign == "-"
    requires d != [] && AllDigits(d)
    ensures var v := if sign == "-" then -(DecimalValue(d) as int) else DecimalValue(d) as int;
      ParseI32(sign + d) == if -0x8000_0000 <= v < 0x8000_0000 then Some(v as i32) else None
  {
    var text := sign + d;
    if sign == "" {
      assert text == d;
      assert IsDigit(d[0]);
    } else {
      assert text[0] == sign[0] && text[1..] == d;
    }
  }

  /** 2147483648 overflows unless it is negated: the i32 range is not symmetric. */
  lemma I32Asymmetry(d: string)
    requires d != [] && AllDigits(d) && DecimalValue(d) == 0x8000_0000
    ensures ParseI32(d) == None && ParseI32("+" + d) == None
    ensures ParseI32("-" + d) == Some(-0x8000_0000)
  {
    assert ("+" + d)[1..] == d && ("-" + d)[1..] == d;
  }

  lemma {:induction false} LeadingZeroValue(d: string)
    requires AllDigits(d)
    ensures AllDigits("0" + d) && DecimalValue("0" + d) == DecimalValue(d)
    decreases |d|
  {
    if d != [] {
      var d' := d[..|d| - 1];
      LeadingZeroValue(d');
      assert ("0" + d)[..|"0" + d| - 1] == "0" + d';
    }
  }

  /** A leading zero or a leading `+` before the digits changes nothing. */
  lemma LeadingZeroAndPlus(d: string)
    requires d != [] && AllDigits(d)
    ensures ParseI32("0" + d) == ParseI32(d)
    ensures ParseI32("+" + d) == ParseI32(d)
  {
    LeadingZeroValue(d);
    assert ("+" + d)[1..] == d;
  }

  /** One optional sign and leading zeros are accepted. */
  lemma I32Signs()
    ensures ParseI32("+7") == Some(7) && ParseI32("-0") == Some(0) && ParseI32("007") == Some(7)
  {
    assert "+7"[1..] == "7" && "7"[..0] == [];
    assert "-0"[1..] == "0" && "0"[..0] == [];
    assert "007"[..2] == "00" && "00"[..1] == "0" && "0"[..0] == [];
  }

  /** No digits, a second sign or any other character is refused. */
  lemma I32Rejects()
    ensures ParseI32("") == None && ParseI32("+") == None && ParseI32("-") == None
    ensures ParseI32("+-1") == None && ParseI32("1.0") == None
  {
    assert "+"[1..] == [] && "-"[1..] == [];
    assert "+-1"[1..][0] == '-';
    assert "1.0"[1] == '.';
  }

  // ---------------------------------------------------------------------------
  // Small inputs

  lemma RunSnoc(s: Scan, x: string, c: char, f: string -> bool)
    ensures Run(s, x + [c], f) == Step(Run(s, x, f), c, f)
  {
    assert (x + [c])[..|x|] == x;
  }

  /** `""` yields no token. */
  lemma EmptyQuotes(f: string -> bool)
    ensures Tokens("\"\"", f) == []
  {
    RunSnoc(Start, [], '"', f);
    assert [] + ['"'] == ['"'];
    assert Run(Start, ['"'], f) == Scan([], [], true);
    RunSnoc(Start, ['"'], '"', f);
    assert "\"\"" == ['"'] + ['"'];
  }

  lemma OpenQuoteThenText(f: string -> bool)
    ensures Run(Start, ['"'] + "abc", f) == Scan([], "abc", true)
  {
    RunSnoc(Start, [], '"', f);
    assert [] + ['"'] == ['"'];
    assert Run(Start, ['"'], f) == Scan([], [], true);
    RunAppend(Start, ['"'], "abc", f);
    WordRun(Scan([], [], true), "abc", f);
    assert [] + "abc" == "abc";
  }

  /** A quoted text yields one String token without its quotes. */
  lemma QuotedText(f: string -> bool)
    ensures Tokens("\"abc\"", f) == [Token(String, StrValue("abc"))]
  {
    OpenQuoteThenText(f);
    RunSnoc(Start, ['"'] + "abc", '"', f);
    assert "\"abc\"" == ['"'] + "abc" + ['"'];
  }

  lemma QuotedWordStart(f: string -> bool)
    ensures Run(Start, ['\'', 'a'], f) == Scan([], "a", true)
  {
    RunSnoc(Start, [], '\'', f);
    assert [] + ['\''] == ['\''];
    assert Run(Start, ['\''], f) == Scan([], [], true);
    RunSnoc(Start, ['\''], 'a', f);
    assert ['\''] + ['a'] == ['\'', 'a'];
  }

  lemma QuotedWordSemicolon(f: string -> bool)
    requires !f("a")
    ensures Run(Start, ['\'', 'a', ';'], f)
            == Scan([Token(TokenType.Identifier, TokenValue.Identifier("a")), Token(Semicolon, NoValue)], [], true)
  {
    assert ParseI32("a") == None;
    assert ParseToken("a", f) == Token(TokenType.Identifier, TokenValue.Identifier("a"));
    QuotedWordStart(f);
    RunSnoc(Start, ['\'', 'a'], ';', f);
    assert ['\'', 'a'] + [';'] == ['\'', 'a', ';'];
  }

  /** A `;` inside quotes still ends the pending text, which is classified as an ordinary word. */
  lemma SemicolonInsideString(f: string -> bool)
    requires !f("a")
    ensures Tokens("'a;b'", f) ==
      [Token(TokenType.Identifier, TokenValue.Identifier("a")), Token(Semicolon, NoValue), Token(String, StrValue("b"))]
  {
    var word := Token(TokenType.Identifier, TokenValue.Identifier("a"));
    var x3 := ['\'', 'a', ';'];
    QuotedWordSemicolon(f);
    var x4 := x3 + ['b'];
    RunSnoc(Start, x3, 'b', f);
    assert Run(Start, x4, f) == Scan([word, Token(Semicolon, NoValue)], "b", true);
    var x5 := x4 + ['\''];
    RunSnoc(Start, x4, '\'', f);
    assert "'a;b'" == x5;
  }

  /** A character that neither ends a word nor is dropped. */
  predicate Plain(c: char) { c != ' ' && Clean(c) && !IsDelimiter(c) }

  /** Characters that neither end a word nor are dropped are appended to the buffer, in either state. */
  lemma {:induction false} WordRun(s: Scan, w: string, f: string -> bool)
    requires forall i :: 0 <= i < |w| ==> Plain(w[i])
    ensures Run(s, w, f) == s.(buffer := s.buffer + w)
    decreases |w|
  {
    if w == [] {
      assert s.buffer + w == s.buffer;
    } else {
      var w', c := w[..|w| - 1], w[|w| - 1];
      WordRun(s, w', f);
      RunSnoc(s, w', c, f);
      assert w' + [c] == w;
      assert s.buffer + w' + [c] == s.buffer + w;
    }
  }

  /** A lone word is flushed once, at the end, as the token `parse_token` makes of it. */
  lemma SingleWord(w: string, f: string -> bool)
    requires w != [] && forall i :: 0 <= i < |w| ==> Plain(w[i])
    ensures Tokens(w, f) == [ParseToken(w, f)]
  {
    WordRun(Start, w, f);
    assert [] + w == w;
  }

  /** The classifier on the samples of each class. */
  lemma LiteralClassification(f: string -> bool)
    ensures ParseToken("true", f) == Token(Boolean, BoolValue(true))
    ensures ParseToken("fn", f) == Token(TokenType.Keyword, TokenValue.Keyword("fn"))
    ensures ParseToken("42", f) == Token(Integer, IntValue(42))
  {
    assert "42"[..1] == "4" && "4"[..0] == [];
  }

  lemma NameClassification(f: string -> bool)
    ensures f("3.5") ==> ParseToken("3.5", f) == Token(Float, FloatValue("3.5"))
    ensures !f("42x") ==> ParseToken("42x", f) == Token(TokenType.Identifier, TokenValue.Identifier("42x"))
    ensures !f("println!") ==> ParseToken("println!", f) == Token(Function, TokenValue.Identifier("println!"))
    ensures !f("main") ==> ParseToken("main", f) == Token(TokenType.Identifier, TokenValue.Identifier("main"))
  {
    assert !IsDigit("3.5"[1]);
    assert !IsDigit("42x"[2]);
    assert !IsDigit("println!"[0]);
    assert !IsDigit("main"[0]);
    assert "println!"[7] == '!';
  }
}
