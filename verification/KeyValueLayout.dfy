/**
 What a KeyValues text says, told from its tokens: blanks and comments between them do not
 matter, and what does not fit is refused (keyvalue.cpp, the parser).
 */
module KeyValueLayout {
  import opened Prelude
  import opened Numbers
  import opened KeyValues

  datatype Tok = Quote(s: Text) | OpenBrace | CloseBrace

  // ------------------------------------------------------- what the tokens say

  /** The subkeys that are read from the tokens, and the tokens after the closing brace. */
  function Subkeys(toks: seq<Tok>, subkeys: seq<Node>, nested: bool): (r: Option<(seq<Node>, seq<Tok>)>)
    ensures r.Some? ==> |r.value.1| <= |toks|
    decreases |toks|
  {
    if toks == [] then if nested then None else Some((subkeys, []))
    else if toks[0].CloseBrace? then if nested then Some((subkeys, toks[1..])) else None
    else if toks[0].OpenBrace? || |toks| == 1 || toks[1].CloseBrace? then None
    else if toks[1].Quote? then Subkeys(toks[2..], SetString(subkeys, toks[0].s, toks[1].s), nested)
    else
      match Subkeys(toks[2..], SubkeysOf(subkeys, toks[0].s), true)
      case None => None
      case Some((inner, rest)) => Subkeys(rest, SetSubkeys(subkeys, toks[0].s, inner), nested)
  }

  // ----------------------------------------------------- how they are laid out

  /** Blanks, and comments that end with their line. */
  predicate IsFiller(f: Text)
    decreases |f|
  {
    || f == []
    || (!Visible(f[0]) && IsFiller(f[1..]))
    || (|f| >= 2 && f[0] == f[1] == SLASH && AfterComment(f[2..]) != [] && IsFiller(AfterComment(f[2..])))
  }

  function TokText(t: Tok): Text {
    match t
    case Quote(s) => [QUOTE] + s + [QUOTE]
    case OpenBrace => [OPEN]
    case CloseBrace => [CLOSE]
  }

  /** The tokens with fillers before, between and after them. */
  function Laid(toks: seq<Tok>, fillers: seq<Text>): Text
    requires |fillers| == |toks| + 1
    decreases toks
  {
    if toks == [] then fillers[0] else fillers[0] + (TokText(toks[0]) + Laid(toks[1..], fillers[1..]))
  }

  predicate Layout(toks: seq<Tok>, fillers: seq<Text>) {
    && |fillers| == |toks| + 1
    && (forall f <- fillers :: IsFiller(f))
    && forall t <- toks :: t.Quote? ==> QUOTE !in t.s
  }

  lemma {:induction false} CommentBefore(c: Text, s: Text)
    requires AfterComment(c) != []
    ensures AfterComment(c + s) == AfterComment(c) + s
  {
    if c[0] != LF {
      assert (c + s)[1..] == c[1..] + s;
      CommentBefore(c[1..], s);
    }
  }

  lemma {:induction false} TokenAfterFiller(f: Text, s: Text)
    requires IsFiller(f)
    ensures Token(f + s) == Token(s)
    decreases |f|
  {
    if f == [] {
      assert f + s == s;
    } else if !Visible(f[0]) {
      assert (f + s)[1..] == f[1..] + s;
      TokenAfterFiller(f[1..], s);
    } else {
      assert (f + s)[2..] == f[2..] + s;
      CommentBefore(f[2..], s);
      TokenAfterFiller(AfterComment(f[2..]), s);
    }
  }

  lemma FirstToken(toks: seq<Tok>, fillers: seq<Text>)
    requires Layout(toks, fillers)
    ensures Token(Laid(toks, fillers)) == if toks == [] then None else Some(TokText(toks[0]) + Laid(toks[1..], fillers[1..]))
    ensures toks != [] ==> Layout(toks[1..], fillers[1..])
  {
    hide IsFiller;
    assert fillers[0] in fillers;
    if toks == [] {
      TokenAfterFiller(fillers[0], []);
      assert fillers[0] + [] == fillers[0];
    } else {
      var rest := TokText(toks[0]) + Laid(toks[1..], fillers[1..]);
      TokenAfterFiller(fillers[0], rest);
      assert forall f <- fillers[1..] :: f in fillers;
      assert forall t <- toks[1..] :: t in toks;
      StartsToken(toks[0], Laid(toks[1..], fillers[1..]));
    }
  }

  lemma StartsToken(t: Tok, s: Text)
    ensures Token(TokText(t) + s) == Some(TokText(t) + s)
    ensures (TokText(t) + s)[0] == match t
      case Quote(_) => QUOTE
      case OpenBrace => OPEN
      case CloseBrace => CLOSE
    ensures !t.Quote? ==> (TokText(t) + s)[1..] == s
  {
  }

  lemma QuoteIsRead(q: Text, s: Text)
    requires QUOTE !in q
    ensures UntilQuote((TokText(Quote(q)) + s)[1..]) == Some((q, s))
  {
    assert (TokText(Quote(q)) + s)[1..] == q + [QUOTE] + s;
    UntilQuoteUnique(q + [QUOTE] + s, q, s);
  }

  /** One round of the parser reads one or two tokens. */
  lemma EntryOfTokens(toks: seq<Tok>, fillers: seq<Text>)
    requires Layout(toks, fillers)
    ensures ReadEntry(Laid(toks, fillers)) ==
      if toks == [] then EndOfText
      else if toks[0].CloseBrace? then Closing(Laid(toks[1..], fillers[1..]))
      else if toks[0].OpenBrace? || |toks| == 1 || toks[1].CloseBrace? then Malformed
      else if toks[1].Quote? then Leaf(toks[0].s, toks[1].s, Laid(toks[2..], fillers[2..]))
      else Opening(toks[0].s, Laid(toks[2..], fillers[2..]))
  {
    hide Token, UntilQuote, Layout, TokText, Laid;
    LayoutLength(toks, fillers);
    FirstToken(toks, fillers);
    if toks != [] {
      StartsToken(toks[0], Laid(toks[1..], fillers[1..]));
      if toks[0].Quote? {
        QuoteOfLayout(toks, fillers);
        QuoteIsRead(toks[0].s, Laid(toks[1..], fillers[1..]));
        FirstToken(toks[1..], fillers[1..]);
        if |toks| > 1 {
          assert toks[1..][1..] == toks[2..] && fillers[1..][1..] == fillers[2..];
          StartsToken(toks[1], Laid(toks[2..], fillers[2..]));
          if toks[1].Quote? {
            QuoteOfLayout(toks[1..], fillers[1..]);
            QuoteIsRead(toks[1].s, Laid(toks[2..], fillers[2..]));
          }
        }
      }
    }
  }

  lemma QuoteOfLayout(toks: seq<Tok>, fillers: seq<Text>)
    requires Layout(toks, fillers) && toks != [] && toks[0].Quote?
    ensures QUOTE !in toks[0].s
  {
    assert toks[0] in toks;
  }

  lemma LayoutTail(toks: seq<Tok>, fillers: seq<Text>, n: nat)
    requires Layout(toks, fillers) && n <= |toks|
    ensures Layout(toks[n..], fillers[n..])
  {
    hide IsFiller;
    assert forall f <- fillers[n..] :: f in fillers;
    assert forall t <- toks[n..] :: t in toks;
  }

  /** The tokens that are left over, as they are laid out. */
  ghost predicate LeavesOff(toks: seq<Tok>, fillers: seq<Text>, rest: seq<Tok>, text: Text)
    requires Layout(toks, fillers)
  {
    |rest| <= |toks| && rest == toks[|toks| - |rest|..] && text == Laid(rest, fillers[|toks| - |rest|..])
  }

  /** The parser makes of the text what its tokens say. */
  lemma {:induction false} TokensAreParsed(toks: seq<Tok>, fillers: seq<Text>, subkeys: seq<Node>, nested: bool)
    requires Layout(toks, fillers)
    ensures var p, r := ParseKeys(Laid(toks, fillers), subkeys, nested), Subkeys(toks, subkeys, nested);
      && (p.Some? <==> r.Some?)
      && (r.Some? ==> p.value.0 == r.value.0 && (nested ==> LeavesOff(toks, fillers, r.value.1, p.value.1)))
    decreases |toks|
  {
    hide ReadEntry, SetString, SetSubkeys, SubkeysOf, Layout, Laid;
    EntryOfTokens(toks, fillers);
    if toks != [] {
      LayoutTail(toks, fillers, 1);
      if toks[0].Quote? && |toks| > 1 && !toks[1].CloseBrace? {
        LayoutTail(toks, fillers, 2);
        LayoutLength(toks, fillers);
        if toks[1].Quote? {
          TokensAreParsed(toks[2..], fillers[2..], SetString(subkeys, toks[0].s, toks[1].s), nested);
        } else {
          NestedAreParsed(toks, fillers, subkeys, nested);
        }
      }
    }
  }

  lemma LayoutLength(toks: seq<Tok>, fillers: seq<Text>)
    requires Layout(toks, fillers)
    ensures |fillers| == |toks| + 1
  {
  }

  lemma {:induction false} NestedAreParsed(toks: seq<Tok>, fillers: seq<Text>, subkeys: seq<Node>, nested: bool)
    requires Layout(toks, fillers) && |toks| > 1 && toks[0].Quote? && toks[1].OpenBrace?
    ensures var p, r := ParseKeys(Laid(toks, fillers), subkeys, nested), Subkeys(toks, subkeys, nested);
      && (p.Some? <==> r.Some?)
      && (r.Some? ==> p.value.0 == r.value.0 && (nested ==> LeavesOff(toks, fillers, r.value.1, p.value.1)))
    decreases |toks|, 0
  {
    hide ReadEntry, SetString, SetSubkeys, SubkeysOf, Layout, Laid;
    EntryOfTokens(toks, fillers);
    LayoutTail(toks, fillers, 2);
    LayoutLength(toks, fillers);
    var found := SubkeysOf(subkeys, toks[0].s);
    TokensAreParsed(toks[2..], fillers[2..], found, true);
    var r := Subkeys(toks[2..], found, true);
    if r.Some? {
      var n := |toks| - |r.value.1|;
      LayoutTail(toks, fillers, n);
      Later(toks, 2, n);
      Later(fillers, 2, n);
      TokensAreParsed(toks[n..], fillers[n..], SetSubkeys(subkeys, toks[0].s, r.value.0), nested);
    }
  }

  lemma Later<T>(s: seq<T>, i: nat, n: nat)
    requires i <= n <= |s|
    ensures s[i..][n - i..] == s[n..]
  {
  }

  /** Blanks and comments do not matter: two layouts of the same tokens say the same. */
  lemma LayoutDoesNotMatter(toks: seq<Tok>, f: seq<Text>, g: seq<Text>)
    requires Layout(toks, f) && Layout(toks, g)
    ensures ParseText(Laid(toks, f)) == ParseText(Laid(toks, g))
      == if Subkeys(toks, [], false).Some? then Some(Subkeys(toks, [], false).value.0) else None
  {
    TokensAreParsed(toks, f, [], false);
    TokensAreParsed(toks, g, [], false);
  }

  // ----------------------------------------------------------- how it is printed

  lemma OneByte(b: byte)
    requires b != 0
    ensures Quoted([b]) == [34, b, 34]
  {
    assert [b][1..] == [];
  }

  /** A string is printed after two tabs on the line of its name, indented by a tab for each level. */
  lemma PrintedLeaf(n: byte, v: byte)
    requires n != 0 && v != 0
    ensures PrintKey(Node([n], [], [v]), 0) == [34, n, 34, 9, 9, 34, v, 34, 10]
    ensures PrintKey(Node([n], [], [v]), 1) == [9, 34, n, 34, 9, 9, 34, v, 34, 10]
  {
    hide Quoted;
    OneByte(n);
    OneByte(v);
    assert Tabs(1) == [TAB] + Tabs(0);
  }

  /** Subkeys are printed between braces on lines of their own. */
  lemma PrintedBranch(n: byte, k: Node)
    requires n != 0
    ensures PrintKey(Node([n], [k], []), 0) == [34, n, 34, 10, 123, 10] + PrintKey(k, 1) + [125, 10]
  {
    hide Quoted;
    OneByte(n);
    assert [k][1..] == [];
    assert PrintKeys([k], 1) == PrintKey(k, 1) + [];
  }
}
