/**
 * The translator of src/ruau/src/translator/translator.rs: one pass over the
 * tokens that appends a fixed fragment per token to the output, with one flag,
 * `doing_function`, that decides how a `)` is rendered, and a closing `main()`.
 */
module Translator {
  import opened Wrappers
  import opened Lexer

  /**
   * The loop reads `tokens[pos + 1]` after a Semicolon without a bounds check,
   * so a Semicolon must never be the last token.
   */
  predicate SemicolonNotLast(tokens: seq<Token>) {
    tokens != [] ==> tokens[|tokens| - 1].kind != Semicolon
  }

  /** The trailing call appended after every token. */
  const Epilogue: string := "main()"

  /**
   * The text one token appends, given the kind of the token after it (read only
   * for a Semicolon) and whether a call's argument list is open.
   */
  function Fragment(t: Token, next: Option<TokenType>, calling: bool): string
    requires t.kind == Semicolon ==> next.Some?
  {
    match t.kind
    case Keyword => if t.value == TokenValue.Keyword("fn") then "function " else ""
    case Identifier => if t.value.Identifier? then t.value.text + " " else ""
    case LParen => "("
    case RParen => if calling then ")" else ") "
    case LBrace => "{\n"
    case RBrace => "\n}\n"
    case Function => if t.value == TokenValue.Identifier("println!") then "print" else ""
    case String => if t.value.StrValue? then "\"" + t.value.text + "\"" else ""
    case Semicolon => if next.value == RBrace then ";" else ";\n"
    case _ => ""
  }

  /** The `doing_function` flag after one token: a Function sets it, a `)` clears it. */
  function CallingAfter(t: Token, calling: bool): bool
  {
    if t.kind == Function then true
    else if t.kind == RParen then false
    else calling
  }

  /** The kind of the token after the first, if any. */
  function NextKind(tokens: seq<Token>): Option<TokenType>
    requires tokens != []
  {
    if |tokens| > 1 then Some(tokens[1].kind) else None
  }

  /** The text the loop appends for `tokens`, starting with the flag `calling`. */
  function Rendered(tokens: seq<Token>, calling: bool): string
    requires SemicolonNotLast(tokens)
    decreases |tokens|
  {
    if tokens == [] then ""
    else
      Fragment(tokens[0], NextKind(tokens), calling)
      + Rendered(tokens[1..], CallingAfter(tokens[0], calling))
  }

  /** The flag after `tokens`, starting from `calling`. */
  function CallingAfterAll(tokens: seq<Token>, calling: bool): bool
    decreases |tokens|
  {
    if tokens == [] then calling
    else CallingAfter(tokens[|tokens| - 1], CallingAfterAll(tokens[..|tokens| - 1], calling))
  }

  /** The kind of the token after position `pos`, if any: what `tokens[pos + 1]` reads. */
  function NextAt(tokens: seq<Token>, pos: nat): Option<TokenType>
    requires pos < |tokens|
  {
    if pos + 1 < |tokens| then Some(tokens[pos + 1].kind) else None
  }

  /** The output after the first `n` iterations of the loop: one fragment per token, by position. */
  function Emitted(tokens: seq<Token>, n: nat): string
    requires n <= |tokens| && SemicolonNotLast(tokens)
  {
    if n == 0 then ""
    else
      Emitted(tokens, n - 1)
      + Fragment(tokens[n - 1], NextAt(tokens, n - 1), CallingAfterAll(tokens[..n - 1], false))
  }

  lemma {:induction false} CallingAfterAllCons(t: Token, r: seq<Token>, calling: bool)
    ensures CallingAfterAll([t] + r, calling) == CallingAfterAll(r, CallingAfter(t, calling))
    decreases |r|
  {
    if r != [] {
      var r' := r[..|r| - 1];
      assert ([t] + r)[..|[t] + r| - 1] == [t] + r';
      CallingAfterAllCons(t, r', calling);
    }
  }

  lemma ConcatAssoc(a: string, b: string, c: string)
    ensures (a + b) + c == a + (b + c)
  {
  }

  /** Rendering from position `m` emits the token at `m`, then renders from `m + 1`. */
  lemma RenderedFrom(tokens: seq<Token>, m: nat, calling: bool)
    requires m < |tokens| && SemicolonNotLast(tokens)
    ensures SemicolonNotLast(tokens[m..]) && SemicolonNotLast(tokens[m + 1..])
    ensures Rendered(tokens[m..], calling)
            == Fragment(tokens[m], NextAt(tokens, m), calling) + Rendered(tokens[m + 1..], CallingAfter(tokens[m], calling))
  {
    assert tokens[m..][1..] == tokens[m + 1..];
    assert NextKind(tokens[m..]) == NextAt(tokens, m);
  }

  /** The flag after the first `m + 1` tokens is the flag after `m` tokens, updated by the token at `m`. */
  lemma CallingAfterPrefix(tokens: seq<Token>, m: nat, calling: bool)
    requires m < |tokens|
    ensures CallingAfterAll(tokens[..m + 1], calling) == CallingAfter(tokens[m], CallingAfterAll(tokens[..m], calling))
  {
    assert tokens[..m + 1][..m] == tokens[..m];
  }

  /** The by-position output and the left-to-right rendering agree at every point of the loop. */
  lemma {:induction false} EmittedThenRendered(tokens: seq<Token>, n: nat)
    requires n <= |tokens| && SemicolonNotLast(tokens)
    ensures SemicolonNotLast(tokens[n..])
    ensures Emitted(tokens, n) + Rendered(tokens[n..], CallingAfterAll(tokens[..n], false)) == Rendered(tokens, false)
    decreases n
  {
    if n == 0 {
      assert tokens[0..] == tokens && tokens[..0] == [];
    } else {
      var m := n - 1;
      EmittedThenRendered(tokens, m);
      var flag := CallingAfterAll(tokens[..m], false);
      RenderedFrom(tokens, m, flag);
      CallingAfterPrefix(tokens, m, false);
      ConcatAssoc(Emitted(tokens, m), Fragment(tokens[m], NextAt(tokens, m), flag),
                  Rendered(tokens[n..], CallingAfter(tokens[m], flag)));
    }
  }

  /** The output built by position is the left-to-right rendering. */
  lemma EmittedIsRendered(tokens: seq<Token>)
    requires SemicolonNotLast(tokens)
    ensures Emitted(tokens, |tokens|) == Rendered(tokens, false)
  {
    EmittedThenRendered(tokens, |tokens|);
    assert tokens[|tokens|..] == [];
  }

  /** The body of the loop of `translate`: the arm of the `match` for `tokens[pos]`. */
  method TranslateToken(tokens: seq<Token>, pos: nat, endResult: string, doingFunction: bool)
    returns (endResult': string, doingFunction': bool)
    requires pos < |tokens| && SemicolonNotLast(tokens)
    ensures endResult' == endResult + Fragment(tokens[pos], NextAt(tokens, pos), doingFunction)
    ensures doingFunction' == CallingAfter(tokens[pos], doingFunction)
  {
    var token := tokens[pos];
    endResult', doingFunction' := endResult, doingFunction;
    match token.kind {
      case Keyword =>
        if token.value.Keyword? && token.value.text == "fn" {
          endResult' := endResult' + "function ";
        }
      case Identifier =>
        if token.value.Identifier? {
          endResult' := endResult' + (token.value.text + " ");
        }
      case LParen =>
        endResult' := endResult' + "(";
      case RParen =>
        if doingFunction' {
          endResult' := endResult' + ")";
          doingFunction' := false;
        } else {
          endResult' := endResult' + ") ";
        }
      case LBrace =>
        endResult' := endResult' + "{\n";
      case RBrace =>
        endResult' := endResult' + "\n}\n";
      case Function =>
        doingFunction' := true;
        if token.value.Identifier? && token.value.text == "println!" {
          endResult' := endResult' + "print";
        }
      case String =>
        if token.value.StrValue? {
          endResult' := endResult' + ("\"" + token.value.text + "\"");
        }
      case Semicolon =>
        if tokens[pos + 1].kind == RBrace {
          endResult' := endResult' + ";";
        } else {
          endResult' := endResult' + ";\n";
        }
      case _ =>
    }
  }

  /** `translate`: the fragments of all tokens in order, then `main()`. */
  method Translate(tokens: seq<Token>) returns (endResult: string)
    requires SemicolonNotLast(tokens)
    ensures endResult == Rendered(tokens, false) + Epilogue
    ensures |endResult| >= |Epilogue| && endResult[|endResult| - |Epilogue|..] == Epilogue
    ensures tokens == [] ==> endResult == Epilogue
  {
    var doingFunction := false;
    endResult := "";
    for pos := 0 to |tokens|
      invariant endResult == Emitted(tokens, pos)
      invariant doingFunction == CallingAfterAll(tokens[..pos], false)
    {
      assert tokens[..pos + 1][..pos] == tokens[..pos];
      endResult, doingFunction := TranslateToken(tokens, pos, endResult, doingFunction);
    }
    EmittedIsRendered(tokens);
    endResult := endResult + Epilogue;
  }
}
