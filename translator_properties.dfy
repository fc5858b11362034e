/**
 * Properties of the translator model: the output is the concatenation of one
 * fragment per token, the call flag is set exactly while some call has no `)`
 * after it, and tokens the translator has no rule for can be deleted without
 * changing the output.
 */
module TranslatorProperties {
  import opened Wrappers
  import opened Lexer
  import opened Translator

  /** Only a Semicolon looks at the token after it. */
  lemma FragmentIgnoresNext(t: Token, n1: Option<TokenType>, n2: Option<TokenType>, calling: bool)
    requires t.kind != Semicolon
    ensures Fragment(t, n1, calling) == Fragment(t, n2, calling)
  {
  }

  /** The emission table of the translation loop. */
  lemma FragmentTable(t: Token, next: Option<TokenType>, calling: bool)
    requires t.kind == Semicolon ==> next.Some?
    ensures t.kind == TokenType.Keyword ==>
      Fragment(t, next, calling) == (if t.value == TokenValue.Keyword("fn") then "function " else "")
    ensures t.kind == TokenType.Identifier && t.value.Identifier? ==>
      Fragment(t, next, calling) == t.value.text + " "
    ensures t.kind == String && t.value.StrValue? ==> Fragment(t, next, calling) == "\"" + t.value.text + "\""
    ensures t.kind == Function ==>
      Fragment(t, next, calling) == (if t.value == TokenValue.Identifier("println!") then "print" else "")
      && CallingAfter(t, calling)
    ensures t.kind == RParen ==> Fragment(t, next, calling) == (if calling then ")" else ") ") && !CallingAfter(t, calling)
    ensures t.kind == LParen ==> Fragment(t, next, calling) == "("
    ensures t.kind == LBrace ==> Fragment(t, next, calling) == "{\n"
    ensures t.kind == RBrace ==> Fragment(t, next, calling) == "\n}\n"
    ensures t.kind == Semicolon ==> Fragment(t, next, calling) == (if next == Some(RBrace) then ";" else ";\n")
    ensures t.kind != Function && t.kind != RParen ==> CallingAfter(t, calling) == calling
  {
  }

  // ---------------------------------------------------------------------------
  // The output is one fragment per token, in order

  /** Rendering splits at any point that does not follow a Semicolon. */
  lemma {:induction false} RenderedAppend(a: seq<Token>, b: seq<Token>, calling: bool)
    requires SemicolonNotLast(a) && SemicolonNotLast(b)
    ensures SemicolonNotLast(a + b)
    ensures Rendered(a + b, calling) == Rendered(a, calling) + Rendered(b, CallingAfterAll(a, calling))
    decreases |a|
  {
    if a == [] {
      assert a + b == b;
    } else {
      var t, a' := a[0], a[1..];
      var next := CallingAfter(t, calling);
      assert (a + b)[0] == t && (a + b)[1..] == a' + b;
      RenderedAppend(a', b, next);
      assert a == [t] + a';
      CallingAfterAllCons(t, a', calling);
      if |a| == 1 {
        FragmentIgnoresNext(t, NextKind(a + b), NextKind(a), calling);
      } else {
        assert (a + b)[1] == a[1];
      }
      ConcatAssoc(Fragment(t, NextKind(a), calling), Rendered(a', next), Rendered(b, CallingAfterAll(a', next)));
    }
  }

  /**
   * A token in the middle of the sequence contributes exactly its fragment,
   * rendered with the flag left by the tokens before it.
   */
  lemma TokenLocality(p: seq<Token>, t: Token, q: seq<Token>, calling: bool)
    requires SemicolonNotLast(p) && SemicolonNotLast(p + [t] + q)
    ensures t.kind == Semicolon ==> q != []
    ensures Rendered(p + [t] + q, calling) ==
      Rendered(p, calling)
      + Fragment(t, if q == [] then None else Some(q[0].kind), CallingAfterAll(p, calling))
      + Rendered(q, CallingAfter(t, CallingAfterAll(p, calling)))
  {
    var tq := [t] + q;
    assert p + [t] + q == p + tq;
    assert tq[1..] == q;
    assert SemicolonNotLast(tq) && SemicolonNotLast(q);
    RenderedAppend(p, tq, calling);
    var c := CallingAfterAll(p, calling);
    ConcatAssoc(Rendered(p, calling), Fragment(t, NextKind(tq), c), Rendered(q, CallingAfter(t, c)));
  }

  // ---------------------------------------------------------------------------
  // The call flag marks an open call

  predicate NoRParen(ts: seq<Token>) { forall k :: 0 <= k < |ts| ==> ts[k].kind != RParen }

  /** Some Function token has no `)` anywhere after it. */
  predicate OpenCall(ts: seq<Token>) {
    exists j :: 0 <= j < |ts| && ts[j].kind == Function && NoRParen(ts[j + 1..])
  }

  lemma OpenCallCons(t: Token, r: seq<Token>)
    ensures OpenCall([t] + r) <==> OpenCall(r) || (t.kind == Function && NoRParen(r))
  {
    var ts := [t] + r;
    assert ts[1..] == r;
    if OpenCall(r) {
      var j :| 0 <= j < |r| && r[j].kind == Function && NoRParen(r[j + 1..]);
      assert ts[j + 1] == r[j] && ts[j + 2..] == r[j + 1..];
    }
    if t.kind == Function && NoRParen(r) {
      assert ts[0].kind == Function && NoRParen(ts[0 + 1..]);
    }
    if OpenCall(ts) {
      var j :| 0 <= j < |ts| && ts[j].kind == Function && NoRParen(ts[j + 1..]);
      if j > 0 {
        assert r[j - 1] == ts[j] && r[j..] == ts[j + 1..];
      }
    }
  }

  lemma {:induction false} CallingAfterAllOpen(ts: seq<Token>, calling: bool)
    ensures CallingAfterAll(ts, calling) <==> OpenCall(ts) || (calling && NoRParen(ts))
    decreases |ts|
  {
    if ts == [] {
    } else {
      var t, r := ts[0], ts[1..];
      assert ts == [t] + r;
      CallingAfterAllOpen(r, CallingAfter(t, calling));
      CallingAfterAllCons(t, r, calling);
      OpenCallCons(t, r);
      assert NoRParen(ts) <==> t.kind != RParen && NoRParen(r) by {
        if t.kind != RParen && NoRParen(r) {
          forall k | 0 <= k < |ts| ensures ts[k].kind != RParen {
            if k > 0 { assert ts[k] == r[k - 1]; }
          }
        }
        if NoRParen(ts) {
          forall k | 0 <= k < |r| ensures r[k].kind != RParen {
            assert r[k] == ts[k + 1];
          }
        }
      }
    }
  }

  /**
   * From the start of translation, `doing_function` is set exactly when some
   * Function token has not yet been followed by any `)`: one `)` closes every
   * open call, so nested calls are not tracked.
   */
  lemma CallFlagMeansOpenCall(ts: seq<Token>)
    ensures CallingAfterAll(ts, false) <==> OpenCall(ts)
  {
    CallingAfterAllOpen(ts, false);
  }

  // ---------------------------------------------------------------------------
  // Tokens without a rule are invisible

  /**
   * The tokens the loop emits nothing for and whose flag it leaves alone: the
   * kinds without a rule, a keyword other than `fn`, and an Identifier or
   * String token whose payload has the wrong tag.
   */
  predicate Silent(t: Token) {
    || t.kind in {Integer, Float, Boolean, Unknown, LCurly, RCurly}
    || (t.kind == TokenType.Keyword && t.value != TokenValue.Keyword("fn"))
    || (t.kind == TokenType.Identifier && !t.value.Identifier?)
    || (t.kind == String && !t.value.StrValue?)
  }

  lemma SilentFragment(t: Token, calling: bool)
    requires Silent(t)
    ensures t.kind != Semicolon && Fragment(t, None, calling) == "" && CallingAfter(t, calling) == calling
  {
  }

  lemma SilentRendersNothing(t: Token, q: seq<Token>, calling: bool)
    requires Silent(t) && SemicolonNotLast(q)
    ensures SemicolonNotLast([t] + q)
    ensures Rendered([t] + q, calling) == Rendered(q, calling)
  {
    SilentFragment(t, calling);
    RenderedCons(t, q, calling);
    assert "" + Rendered(q, calling) == Rendered(q, calling);
  }

  /** Deleting a silent token that does not follow a Semicolon leaves the output unchanged. */
  lemma SilentTokenInvisible(p: seq<Token>, t: Token, q: seq<Token>, calling: bool)
    requires Silent(t)
    requires SemicolonNotLast(p) && SemicolonNotLast(p + [t] + q)
    ensures SemicolonNotLast(p + q)
    ensures Rendered(p + [t] + q, calling) == Rendered(p + q, calling)
  {
    assert p + [t] + q == p + ([t] + q);
    assert q != [] ==> q[|q| - 1] == (p + [t] + q)[|p + [t] + q| - 1];
    SilentRendersNothing(t, q, CallingAfterAll(p, calling));
    RenderedAppend(p, [t] + q, calling);
    RenderedAppend(p, q, calling);
  }

  // ---------------------------------------------------------------------------
  // Small token sequences

  /** A token other than a Semicolon renders the same whatever follows it. */
  lemma RenderedCons(t: Token, r: seq<Token>, calling: bool)
    requires t.kind != Semicolon && SemicolonNotLast(r)
    ensures SemicolonNotLast([t] + r)
    ensures Rendered([t] + r, calling) == Fragment(t, None, calling) + Rendered(r, CallingAfter(t, calling))
  {
    assert ([t] + r)[1..] == r;
    FragmentIgnoresNext(t, NextKind([t] + r), None, calling);
  }

  /** Braces: `{` then a newline, and a newline, `}` and a newline. */
  lemma BraceExample()
    ensures Rendered([Token(LBrace, NoValue), Token(RBrace, NoValue)], false) == "{\n\n}\n"
  {
    assert [Token(LBrace, NoValue), Token(RBrace, NoValue)][1..] == [Token(RBrace, NoValue)];
  }

  /** The end of a call statement just before a closing brace: no newline after the `;`. */
  lemma CallEndExample()
    ensures Rendered([Token(RParen, NoValue), Token(Semicolon, NoValue), Token(RBrace, NoValue)], true)
            == ");\n}\n"
  {
    var ts := [Token(RParen, NoValue), Token(Semicolon, NoValue), Token(RBrace, NoValue)];
    assert ts[2..][1..] == [];
    assert Rendered(ts[2..], false) == "\n}\n";
    assert ts[1..][1..] == ts[2..];
    assert Rendered(ts[1..], false) == ";\n}\n";
    RenderedCons(ts[0], ts[1..], true);
    assert ts == [ts[0]] + ts[1..];
  }

  /** A call with a string argument: `println!` becomes `print`, and the `)` gets no trailing space. */
  lemma CallArgumentExample()
    ensures Rendered([Token(LParen, NoValue), Token(String, StrValue("hi")), Token(RParen, NoValue),
                      Token(Semicolon, NoValue), Token(RBrace, NoValue)], true)
            == "(\"hi\");\n}\n"
  {
    var tail := [Token(RParen, NoValue), Token(Semicolon, NoValue), Token(RBrace, NoValue)];
    CallEndExample();
    var s2 := [Token(String, StrValue("hi"))] + tail;
    RenderedCons(Token(String, StrValue("hi")), tail, true);
    assert Rendered(s2, true) == "\"hi\");\n}\n";
    var s1 := [Token(LParen, NoValue)] + s2;
    RenderedCons(Token(LParen, NoValue), s2, true);
    assert s1 == [Token(LParen, NoValue), Token(String, StrValue("hi")), Token(RParen, NoValue),
                  Token(Semicolon, NoValue), Token(RBrace, NoValue)];
  }

  /** The body of the sample program: a `println!` call closed by `;` just before `}`. */
  lemma PrintlnExample()
    ensures Rendered([Token(Function, TokenValue.Identifier("println!")), Token(LParen, NoValue),
                      Token(String, StrValue("hi")), Token(RParen, NoValue), Token(Semicolon, NoValue),
                      Token(RBrace, NoValue)], false)
            == "print(\"hi\");\n}\n"
  {
    var call := Token(Function, TokenValue.Identifier("println!"));
    var rest := [Token(LParen, NoValue), Token(String, StrValue("hi")), Token(RParen, NoValue),
                 Token(Semicolon, NoValue), Token(RBrace, NoValue)];
    CallArgumentExample();
    RenderedCons(call, rest, false);
    assert Fragment(call, None, false) == "print";
    assert Rendered([call] + rest, false) == "print(\"hi\");\n}\n";
    assert [call] + rest == [call, Token(LParen, NoValue), Token(String, StrValue("hi")), Token(RParen, NoValue),
                             Token(Semicolon, NoValue), Token(RBrace, NoValue)];
  }
}
