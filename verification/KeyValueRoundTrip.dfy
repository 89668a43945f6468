/**
 Printing a KeyValues tree and parsing the text again: what comes back for any tree
 whose printed strings hold no quote, and exactly when it is the tree that was printed.
 */
module KeyValueRoundTrip {
  import opened Prelude
  import opened KeyValues

  // ------------------------------------------------------------ definitions

  /** The effect on the tree being parsed of reading back what one subkey prints. */
  function Absorb(subkeys: seq<Node>, k: Node): seq<Node>
    decreases k, 1
  {
    if Skipped(k) then subkeys
    else if k.str != [] then SetString(subkeys, CStr(k.name), CStr(k.str))
    else SetSubkeys(subkeys, CStr(k.name), AbsorbAll(SubkeysOf(subkeys, CStr(k.name)), k.subkeys))
  }

  function AbsorbAll(subkeys: seq<Node>, ks: seq<Node>): seq<Node>
    decreases ks, 0
  {
    if ks == [] then subkeys else AbsorbAll(Absorb(subkeys, ks[0]), ks[1..])
  }

  /** Every string that is printed can be quoted. */
  predicate Quotable(ks: seq<Node>) {
    forall k <- ks | !Skipped(k) ::
      QUOTE !in CStr(k.name) && if k.str != [] then QUOTE !in CStr(k.str) else Quotable(k.subkeys)
  }

  /** The part of a tree that is printed: no empty subkeys, and a string hides subkeys. */
  function Pruned(ks: seq<Node>): seq<Node>
    decreases ks, 0
  {
    if ks == [] then [] else PrunedKey(ks[0]) + Pruned(ks[1..])
  }

  function PrunedKey(k: Node): seq<Node>
    decreases k, 1
  {
    if Skipped(k) then []
    else if k.str != [] then [Node(k.name, [], k.str)]
    else [Node(k.name, Pruned(k.subkeys), [])]
  }

  /** No quote, and no NUL unless those are let through. */
  predicate PlainText(s: Text, nuls: bool) {
    QUOTE !in s && (nuls || NUL !in s)
  }

  predicate CleanText(s: Text) {
    PlainText(s, false)
  }

  predicate DistinctNames(ks: seq<Node>) {
    forall i, j :: 0 <= i < j < |ks| ==> ks[i].name != ks[j].name
  }

  /** Siblings have different names and the strings are plain. */
  predicate Tidy(ks: seq<Node>, nuls: bool) {
    DistinctNames(ks) && forall k <- ks :: PlainText(k.name, nuls) && PlainText(k.str, nuls) && Tidy(k.subkeys, nuls)
  }

  /** Siblings have different names and no string holds a quote or a NUL. */
  predicate Clean(ks: seq<Node>) {
    Tidy(ks, false)
  }

  /** No name and no string holds a NUL. */
  predicate NulFree(ks: seq<Node>) {
    forall k <- ks :: NUL !in k.name && NUL !in k.str && NulFree(k.subkeys)
  }

  // ------------------------------------------------- reading printed pieces

  lemma {:induction false} TokenAfterTabs(n: nat, s: Text)
    ensures Token(Tabs(n) + s) == Token(s)
  {
    if n == 0 {
      assert Tabs(n) + s == s;
    } else {
      assert (Tabs(n) + s)[1..] == Tabs(n - 1) + s;
      TokenAfterTabs(n - 1, s);
    }
  }

  lemma TokenAfterLine(s: Text)
    ensures Token([LF] + s) == Token(s)
  {
    assert ([LF] + s)[1..] == s;
  }

  lemma ParseAfterLine(s: Text, subkeys: seq<Node>, e: bool)
    ensures ParseKeys([LF] + s, subkeys, e) == ParseKeys(s, subkeys, e)
  {
    TokenAfterLine(s);
    assert ReadEntry([LF] + s) == ReadEntry(s);
  }

  /** A quoted string is read back whole. */
  lemma ReadQuoted(n: nat, s: Text, rest: Text)
    requires QUOTE !in CStr(s)
    ensures var t := Tabs(n) + (Quoted(s) + rest);
      Token(t) == Some(Quoted(s) + rest) && UntilQuote((Quoted(s) + rest)[1..]) == Some((CStr(s), rest))
  {
    hide Token, UntilQuote, CStr, Tabs;
    var t := Quoted(s) + rest;
    TokenAfterTabs(n, t);
    AfterFirst(QUOTE, CStr(s), [QUOTE], rest);
    TokenAtQuote(t);
    UntilQuoteUnique(t[1..], CStr(s), rest);
  }

  lemma AfterFirst<T>(x: T, a: seq<T>, b: seq<T>, c: seq<T>)
    ensures ([x] + a + b + c)[1..] == a + b + c && ([x] + a + b + c)[0] == x
  {
  }

  lemma TokenAtQuote(s: Text)
    requires s != [] && s[0] == QUOTE
    ensures Token(s) == Some(s)
  {
  }

  lemma RegroupLine(t: Text, name: Text, value: Text, rest: Text)
    ensures t + (name + [TAB, TAB] + value + [LF]) + rest == t + (name + ([TAB, TAB] + (value + ([LF] + rest))))
  {
  }

  lemma ReadLine(n: nat, name: Text, value: Text, rest: Text)
    requires QUOTE !in CStr(name) && QUOTE !in CStr(value)
    ensures ReadEntry(Tabs(n) + PrintLine(name, value) + rest) == Leaf(CStr(name), CStr(value), [LF] + rest)
  {
    RegroupLine(Tabs(n), Quoted(name), Quoted(value), rest);
    TwoTabs();
    var after := Tabs(2) + (Quoted(value) + ([LF] + rest));
    assert Tabs(n) + PrintLine(name, value) + rest == Tabs(n) + (Quoted(name) + after);
    ReadQuoted(n, name, after);
    ReadQuoted(2, value, [LF] + rest);
  }

  lemma TwoTabs()
    ensures Tabs(2) == [TAB, TAB]
  {
    assert Tabs(1) == [TAB] + Tabs(0);
  }

  lemma ReadOpening(n: nat, name: Text, m: nat, rest: Text)
    requires QUOTE !in CStr(name)
    ensures ReadEntry(Tabs(n) + (Quoted(name) + ([LF] + (Tabs(m) + ([OPEN] + rest))))) == Opening(CStr(name), rest)
  {
    var after := [LF] + (Tabs(m) + ([OPEN] + rest));
    ReadQuoted(n, name, after);
    TokenAfterLine(Tabs(m) + ([OPEN] + rest));
    TokenAfterTabs(m, [OPEN] + rest);
    assert ([OPEN] + rest)[1..] == rest;
  }

  lemma ReadClosing(m: nat, rest: Text)
    ensures ReadEntry(Tabs(m) + ([CLOSE] + rest)) == Closing(rest)
  {
    TokenAfterTabs(m, [CLOSE] + rest);
    assert ([CLOSE] + rest)[1..] == rest;
  }

  // --------------------------------------------------------- the reload law

  lemma {:induction false} ParsePrintedKeys(ks: seq<Node>, indent: nat, subkeys: seq<Node>, rest: Text, e: bool)
    requires Quotable(ks)
    ensures ParseKeys(PrintKeys(ks, indent) + rest, subkeys, e) == ParseKeys(rest, AbsorbAll(subkeys, ks), e)
    decreases ks, 0
  {
    hide ParseKeys, PrintKey, Absorb;
    if ks == [] {
      assert PrintKeys(ks, indent) + rest == rest;
    } else {
      var tail := PrintKeys(ks[1..], indent) + rest;
      assert PrintKeys(ks, indent) + rest == PrintKey(ks[0], indent) + tail;
      ParsePrintedKey(ks[0], indent, subkeys, tail, e);
      ParsePrintedKeys(ks[1..], indent, Absorb(subkeys, ks[0]), rest, e);
    }
  }

  lemma {:induction false} ParsePrintedKey(k: Node, indent: nat, subkeys: seq<Node>, tail: Text, e: bool)
    requires Quotable([k])
    ensures ParseKeys(PrintKey(k, indent) + tail, subkeys, e) == ParseKeys(tail, Absorb(subkeys, k), e)
    decreases k, 1
  {
    assert k in [k];
    if Skipped(k) {
      assert PrintKey(k, indent) + tail == tail;
    } else if k.str != [] {
      ReadLine(indent, k.name, k.str, tail);
      ParseAfterLine(tail, SetString(subkeys, CStr(k.name), CStr(k.str)), e);
    } else {
      ParsePrintedBranch(k, indent, subkeys, tail, e);
    }
  }

  lemma {:induction false} ParsePrintedBranch(k: Node, indent: nat, subkeys: seq<Node>, tail: Text, e: bool)
    requires !Skipped(k) && k.str == [] && QUOTE !in CStr(k.name) && Quotable(k.subkeys)
    ensures ParseKeys(PrintKey(k, indent) + tail, subkeys, e) == ParseKeys(tail, Absorb(subkeys, k), e)
    decreases k, 0
  {
    var inside := PrintKeys(k.subkeys, indent + 1);
    var closing := Tabs(indent) + ([CLOSE] + ([LF] + tail));
    var found := SubkeysOf(subkeys, CStr(k.name));
    var inner := AbsorbAll(found, k.subkeys);
    BranchText(k, indent, tail);
    ReadOpening(indent, k.name, indent, [LF] + (inside + closing));
    assert ParseKeys([LF] + (inside + closing), found, true) == Some((inner, [LF] + tail)) by {
      ParseAfterLine(inside + closing, found, true);
      ParsePrintedKeys(k.subkeys, indent + 1, found, closing, true);
      ReadClosing(indent, [LF] + tail);
      ClosingStep(closing, [LF] + tail, inner);
    }
    OpeningStep(PrintKey(k, indent) + tail, CStr(k.name), [LF] + (inside + closing), subkeys, e, inner, [LF] + tail);
    ParseAfterLine(tail, Absorb(subkeys, k), e);
  }

  lemma ClosingStep(s: Text, rest: Text, subkeys: seq<Node>)
    requires ReadEntry(s) == Closing(rest)
    ensures ParseKeys(s, subkeys, true) == Some((subkeys, rest))
  {
  }

  lemma OpeningStep(s: Text, name: Text, rest: Text, subkeys: seq<Node>, e: bool, inner: seq<Node>, after: Text)
    requires ReadEntry(s) == Opening(name, rest)
    requires ParseKeys(rest, SubkeysOf(subkeys, name), true) == Some((inner, after))
    ensures ParseKeys(s, subkeys, e) == ParseKeys(after, SetSubkeys(subkeys, name, inner), e)
  {
  }

  lemma RegroupBranch(t: Text, name: Text, inside: Text, tail: Text)
    ensures t + (name + ([LF] + t + [OPEN, LF] + inside + t + [CLOSE, LF])) + tail
         == t + (name + ([LF] + (t + ([OPEN] + ([LF] + (inside + (t + ([CLOSE] + ([LF] + tail)))))))))
  {
    var end := t + ([CLOSE] + ([LF] + tail));
    assert t + [CLOSE, LF] + tail == end;
    var body := [LF] + t + [OPEN, LF] + inside + t + [CLOSE, LF];
    assert body == [LF] + t + [OPEN, LF] + inside + (t + [CLOSE, LF]);
    assert body + tail == [LF] + t + [OPEN, LF] + inside + end;
    assert body + tail == [LF] + (t + ([OPEN] + ([LF] + (inside + end))));
  }

  lemma BranchText(k: Node, indent: nat, tail: Text)
    requires !Skipped(k) && k.str == []
    ensures PrintKey(k, indent) + tail ==
      Tabs(indent) + (Quoted(k.name) + ([LF] + (Tabs(indent) + ([OPEN] + ([LF]
        + (PrintKeys(k.subkeys, indent + 1) + (Tabs(indent) + ([CLOSE] + ([LF] + tail)))))))))
  {
    RegroupBranch(Tabs(indent), Quoted(k.name), PrintKeys(k.subkeys, indent + 1), tail);
  }

  /** Reading back a printed tree gives each printed subkey absorbed in turn, merging same-named siblings. */
  lemma PrintedTreeReloads(ks: seq<Node>)
    requires Quotable(ks)
    ensures ParseText(PrintBody(ks, 0)) == Some(AbsorbAll([], ks))
  {
    ParsePrintedKeys(ks, 0, [], [], false);
    assert PrintKeys(ks, 0) + [] == PrintKeys(ks, 0);
  }

  // ------------------------------------------- what the parser can produce

  lemma {:induction false} TokenIsSuffix(s: Text, nuls: bool)
    requires nuls || NUL !in s
    ensures Token(s).Some? ==> nuls || NUL !in Token(s).value
    decreases |s|
  {
    if s != [] {
      AfterCommentIsSuffix(s[1..], nuls);
      if !Visible(s[0]) {
        TokenIsSuffix(s[1..], nuls);
      } else if s[0] == SLASH && |s| >= 2 && s[1] == SLASH {
        AfterCommentIsSuffix(s[2..], nuls);
        TokenIsSuffix(AfterComment(s[2..]), nuls);
      }
    }
  }

  lemma {:induction false} AfterCommentIsSuffix(s: Text, nuls: bool)
    requires nuls || NUL !in s
    ensures nuls || NUL !in AfterComment(s)
  {
    if s != [] && s[0] != LF {
      AfterCommentIsSuffix(s[1..], nuls);
    }
  }

  lemma NoNulAroundQuote(s: Text, nuls: bool)
    requires (nuls || NUL !in s) && UntilQuote(s).Some?
    ensures PlainText(UntilQuote(s).value.0, nuls) && (nuls || NUL !in UntilQuote(s).value.1)
  {
    var (before, after) := UntilQuote(s).value;
    assert forall i :: 0 <= i < |before| ==> before[i] == s[i];
    assert forall i :: 0 <= i < |after| ==> after[i] == s[|before| + 1 + i];
  }

  lemma ReadEntryIsTidy(s: Text, nuls: bool)
    requires nuls || NUL !in s
    ensures var e := ReadEntry(s);
      && (e.Leaf? || e.Opening? ==> PlainText(e.name, nuls))
      && (e.Leaf? ==> PlainText(e.value, nuls))
      && (e.Leaf? || e.Opening? || e.Closing? ==> nuls || NUL !in e.rest)
  {
    TokenIsSuffix(s, nuls);
    var t := Token(s);
    if t.Some? && t.value[0] == QUOTE && UntilQuote(t.value[1..]).Some? {
      NoNulAroundQuote(t.value[1..], nuls);
      var u := UntilQuote(t.value[1..]).value.1;
      TokenIsSuffix(u, nuls);
      if Token(u).Some? && UntilQuote(Token(u).value[1..]).Some? {
        NoNulAroundQuote(Token(u).value[1..], nuls);
      }
    }
  }

  lemma SetStringIsTidy(ks: seq<Node>, name: Text, value: Text, nuls: bool)
    requires Tidy(ks, nuls) && PlainText(name, nuls) && PlainText(value, nuls)
    ensures Tidy(SetString(ks, name, value), nuls)
  {
    var found, i := FindOrCreate(ks, name), IndexOf(ks, name);
    assert Tidy([], nuls);
    assert Tidy(found[i].subkeys, nuls);
    forall k | k in SetString(ks, name, value)
      ensures PlainText(k.name, nuls) && PlainText(k.str, nuls) && Tidy(k.subkeys, nuls)
    {
      assert k == found[i].(str := value) || k in found;
    }
  }

  lemma SetSubkeysIsTidy(ks: seq<Node>, name: Text, inner: seq<Node>, nuls: bool)
    requires Tidy(ks, nuls) && PlainText(name, nuls) && Tidy(inner, nuls)
    ensures Tidy(SetSubkeys(ks, name, inner), nuls)
  {
    var found, i := FindOrCreate(ks, name), IndexOf(ks, name);
    assert PlainText(found[i].str, nuls);
    forall k | k in SetSubkeys(ks, name, inner)
      ensures PlainText(k.name, nuls) && PlainText(k.str, nuls) && Tidy(k.subkeys, nuls)
    {
      assert k == found[i].(subkeys := inner) || k in found;
    }
  }

  /** Whatever text it is given, the parser keeps names apart and strings free of quotes; NULs come from the text alone. */
  lemma {:induction false} ParsedTreeIsTidy(s: Text, ks: seq<Node>, e: bool, nuls: bool)
    requires (nuls || NUL !in s) && Tidy(ks, nuls) && ParseKeys(s, ks, e).Some?
    ensures Tidy(ParseKeys(s, ks, e).value.0, nuls) && (nuls || NUL !in ParseKeys(s, ks, e).value.1)
    decreases |s|
  {
    ReadEntryIsTidy(s, nuls);
    match ReadEntry(s)
    case Leaf(name, value, rest) =>
      SetStringIsTidy(ks, name, value, nuls);
      ParsedTreeIsTidy(rest, SetString(ks, name, value), e, nuls);
    case Opening(name, rest) =>
      assert Tidy([], nuls);
      assert Tidy(SubkeysOf(ks, name), nuls);
      ParsedTreeIsTidy(rest, SubkeysOf(ks, name), true, nuls);
      var (inner, after) := ParseKeys(rest, SubkeysOf(ks, name), true).value;
      SetSubkeysIsTidy(ks, name, inner, nuls);
      ParsedTreeIsTidy(after, SetSubkeys(ks, name, inner), e, nuls);
    case _ =>
  }

  lemma {:induction false} PrintedHasNoNul(ks: seq<Node>, indent: nat)
    ensures NUL !in PrintKeys(ks, indent)
    decreases ks, 0
  {
    if ks != [] {
      PrintedHasNoNul(ks[1..], indent);
      PrintedKeyHasNoNul(ks[0], indent);
    }
  }

  lemma {:induction false} PrintedKeyHasNoNul(k: Node, indent: nat)
    ensures NUL !in PrintKey(k, indent)
    decreases k, 1
  {
    TabsHaveNoNul(indent);
    PrintedHasNoNul(k.subkeys, indent + 1);
    assert NUL !in Quoted(k.name) && NUL !in PrintLine(k.name, k.str);
  }

  lemma {:induction false} TabsHaveNoNul(n: nat)
    ensures NUL !in Tabs(n)
  {
    if n > 0 {
      TabsHaveNoNul(n - 1);
    }
  }

  // -------------------------------------------------- exactly when it holds

  lemma {:induction false} CleanPrunedIsQuotable(ks: seq<Node>)
    requires Clean(Pruned(ks))
    ensures Quotable(ks)
  {
    if ks != [] {
      var first := PrunedKey(ks[0]);
      assert Pruned(ks) == first + Pruned(ks[1..]);
      TidyParts(first, Pruned(ks[1..]), false);
      CleanPrunedIsQuotable(ks[1..]);
      if !Skipped(ks[0]) {
        assert first[0] in first;
        if ks[0].str == [] {
          CleanPrunedIsQuotable(ks[0].subkeys);
        }
      }
      forall k | k in ks && !Skipped(k)
        ensures QUOTE !in CStr(k.name) && if k.str != [] then QUOTE !in CStr(k.str) else Quotable(k.subkeys)
      {
        assert k == ks[0] || k in ks[1..];
      }
    }
  }

  lemma TidyParts(a: seq<Node>, b: seq<Node>, nuls: bool)
    requires Tidy(a + b, nuls)
    ensures Tidy(a, nuls) && Tidy(b, nuls)
    ensures forall x <- a, y <- b :: x.name != y.name
  {
    forall k | k in a || k in b
      ensures PlainText(k.name, nuls) && PlainText(k.str, nuls) && Tidy(k.subkeys, nuls)
    {
      assert k in a + b;
    }
    forall i, j | 0 <= i < j < |a|
      ensures a[i].name != a[j].name
    {
      assert (a + b)[i] == a[i] && (a + b)[j] == a[j];
    }
    forall i, j | 0 <= i < j < |b|
      ensures b[i].name != b[j].name
    {
      assert (a + b)[|a| + i] == b[i] && (a + b)[|a| + j] == b[j];
    }
    forall i, j | 0 <= i < |a| && 0 <= j < |b|
      ensures a[i].name != b[j].name
    {
      assert (a + b)[i] == a[i] && (a + b)[|a| + j] == b[j];
    }
  }

  lemma AbsorbFresh(acc: seq<Node>, name: Text)
    requires forall x <- acc :: x.name != name
    ensures IndexOf(acc, name) == |acc| && SubkeysOf(acc, name) == []
    ensures forall value :: SetString(acc, name, value) == acc + [Node(name, [], value)]
    ensures forall inner :: SetSubkeys(acc, name, inner) == acc + [Node(name, inner, [])]
  {
  }

  /** On a clean tree nothing merges, so absorbing is appending the pruned tree. */
  lemma {:induction false} AbsorbIsAppend(acc: seq<Node>, ks: seq<Node>)
    requires Clean(Pruned(ks))
    requires forall x <- acc, y <- Pruned(ks) :: x.name != y.name
    ensures AbsorbAll(acc, ks) == acc + Pruned(ks)
    decreases ks, 0
  {
    hide Tidy, DistinctNames, Absorb, PrunedKey;
    if ks != [] {
      var first, others := PrunedKey(ks[0]), Pruned(ks[1..]);
      TidyParts(first, others, false);
      AbsorbKeyIsAppend(acc, ks[0]);
      AbsorbIsAppend(acc + first, ks[1..]);
      assert acc + first + others == acc + (first + others);
    } else {
      assert acc + [] == acc;
    }
  }

  lemma {:induction false} AbsorbKeyIsAppend(acc: seq<Node>, k: Node)
    requires Clean(PrunedKey(k))
    requires forall x <- acc, y <- PrunedKey(k) :: x.name != y.name
    ensures Absorb(acc, k) == acc + PrunedKey(k)
    decreases k, 1
  {
    if Skipped(k) {
      assert acc + [] == acc;
    } else {
      var p := PrunedKey(k)[0];
      assert p in PrunedKey(k);
      AbsorbFresh(acc, k.name);
      if k.str == [] {
        AbsorbIsAppend([], k.subkeys);
        assert [] + Pruned(k.subkeys) == Pruned(k.subkeys);
        assert CStr(k.name) == k.name;
        assert SetSubkeys(acc, k.name, Pruned(k.subkeys)) == acc + [Node(k.name, Pruned(k.subkeys), [])];
      }
    }
  }

  lemma CleanTreeReloads(ks: seq<Node>)
    requires Clean(Pruned(ks))
    ensures ParseText(PrintBody(ks, 0)) == Some(Pruned(ks))
  {
    CleanPrunedIsQuotable(ks);
    PrintedTreeReloads(ks);
    AbsorbIsAppend([], ks);
    assert [] + Pruned(ks) == Pruned(ks);
  }

  lemma ReloadedTreeIsClean(ks: seq<Node>)
    requires ParseText(PrintBody(ks, 0)).Some?
    ensures Clean(ParseText(PrintBody(ks, 0)).value)
  {
    PrintedHasNoNul(ks, 0);
    assert Tidy([], false);
    ParsedTreeIsTidy(PrintBody(ks, 0), [], false, false);
  }

  /**
   For every tree whatsoever: printing it and parsing the text gives the printed part
   of the tree if and only if that part has different names among siblings and no
   quote or NUL in any string.
   */
  lemma PrintParseRoundTrip(ks: seq<Node>)
    ensures ParseText(PrintBody(ks, 0)) == Some(Pruned(ks)) <==> Clean(Pruned(ks))
  {
    if Clean(Pruned(ks)) {
      CleanTreeReloads(ks);
    }
    if ParseText(PrintBody(ks, 0)) == Some(Pruned(ks)) {
      ReloadedTreeIsClean(ks);
    }
  }

  lemma {:induction false} PrunedIsTidy(ks: seq<Node>, nuls: bool)
    requires Tidy(ks, nuls)
    ensures Tidy(Pruned(ks), nuls)
    ensures forall p <- Pruned(ks) :: exists k <- ks :: p.name == k.name
  {
    if ks != [] {
      var first, others := PrunedKey(ks[0]), Pruned(ks[1..]);
      assert Pruned(ks) == first + others;
      assert [ks[0]] + ks[1..] == ks;
      TidyParts([ks[0]], ks[1..], nuls);
      PrunedIsTidy(ks[1..], nuls);
      assert ks[0] in [ks[0]];
      PrunedIsTidy(ks[0].subkeys, nuls);
      assert Tidy([], nuls);
      assert forall p <- first :: p.name == ks[0].name && PlainText(p.name, nuls) && PlainText(p.str, nuls) && Tidy(p.subkeys, nuls);
      forall p | p in others
        ensures p.name != ks[0].name
      {
        var k :| k in ks[1..] && p.name == k.name;
        assert k in ks;
      }
    }
  }

  lemma {:induction false} CleanIsTidy(ks: seq<Node>)
    ensures Clean(ks) <==> Tidy(ks, true) && NulFree(ks)
  {
    forall k | k in ks
      ensures Clean(k.subkeys) <==> Tidy(k.subkeys, true) && NulFree(k.subkeys)
    {
      CleanIsTidy(k.subkeys);
    }
  }

  /**
   Any file the parser accepts survives a save if and only if nothing that is printed holds
   a NUL, which the text must have held: reloading the saved text gives the printed part.
   */
  lemma SavedParseReloads(s: Text)
    requires ParseText(s).Some?
    ensures ParseText(PrintBody(ParseText(s).value, 0)) == Some(Pruned(ParseText(s).value)) <==> NulFree(Pruned(ParseText(s).value))
    ensures NUL !in s ==> NulFree(Pruned(ParseText(s).value))
  {
    var ks, nuls := ParseText(s).value, NUL in s;
    assert Tidy([], true) && Tidy([], nuls);
    ParsedTreeIsTidy(s, [], false, true);
    ParsedTreeIsTidy(s, [], false, nuls);
    PrunedIsTidy(ks, true);
    PrunedIsTidy(ks, nuls);
    CleanIsTidy(Pruned(ks));
    PrintParseRoundTrip(ks);
  }

  /** Same-named siblings are the failing family: the second is merged into the first. */
  lemma SameNamedSiblingsMerge(name: Text, first: Text, second: Text)
    requires CleanText(name) && CleanText(first) && CleanText(second) && first != [] && second != []
    ensures ParseText(PrintBody([Node(name, [], first), Node(name, [], second)], 0)) == Some([Node(name, [], second)])
  {
    var a, b := Node(name, [], first), Node(name, [], second);
    assert Quotable([a, b]);
    PrintedTreeReloads([a, b]);
    AbsorbFresh([], name);
    assert Absorb([], a) == [a];
    assert Absorb([a], b) == [b];
    assert [a, b][1..] == [b] && [b][1..] == [];
    assert AbsorbAll([], [a, b]) == AbsorbAll([a], [b]) == AbsorbAll([b], []) == [b];
  }

  // ------------------------------------------------- a quote in the wrong place

  /** A quote and then a character that no token can begin with. */
  predicate SpoilsAt(s: Text, j: nat) {
    && j + 1 < |s| && s[j] == QUOTE && QUOTE !in s[..j] && NUL !in s
    && Visible(s[j + 1]) && s[j + 1] != QUOTE && s[j + 1] != SLASH && s[j + 1] != CLOSE
  }

  /** Somewhere below the first such string stands behind strings that can be quoted. */
  predicate Spoiled(k: Node) {
    && QUOTE !in CStr(k.name)
    && if k.str != [] then exists j :: 0 <= j < |k.str| && SpoilsAt(k.str, j)
       else exists i :: 0 <= i < |k.subkeys| && Quotable(k.subkeys[..i]) && Spoiled(k.subkeys[i])
  }

  lemma SplitAtQuote(name: Text, value: Text, j: nat, tail: Text)
    requires SpoilsAt(value, j)
    ensures Quoted(value) + tail == [QUOTE] + (value[..j] + [QUOTE] + (value[j + 1..] + ([QUOTE] + tail)))
    ensures (value[j + 1..] + ([QUOTE] + tail))[0] == value[j + 1]
  {
    assert CStr(value) == value && value == value[..j] + [QUOTE] + value[j + 1..];
    assert [QUOTE] + value + [QUOTE] + tail == [QUOTE] + (value[..j] + [QUOTE] + (value[j + 1..] + ([QUOTE] + tail)));
  }

  /** The value ends at the quote, and what follows is no token. */
  lemma ReadSpoiledLine(n: nat, name: Text, value: Text, j: nat, tail: Text)
    requires QUOTE !in CStr(name) && j + 1 < |value| && SpoilsAt(value, j)
    ensures ReadEntry(Tabs(n) + PrintLine(name, value) + tail)
      == Leaf(CStr(name), value[..j], value[j + 1..] + ([QUOTE] + ([LF] + tail)))
  {
    hide UntilQuote, SpoilsAt, CStr;
    RegroupLine(Tabs(n), Quoted(name), Quoted(value), tail);
    TwoTabs();
    var rest := value[j + 1..] + ([QUOTE] + ([LF] + tail));
    var quoted := [QUOTE] + (value[..j] + [QUOTE] + rest);
    SplitAtQuote(name, value, j, [LF] + tail);
    assert Tabs(n) + PrintLine(name, value) + tail == Tabs(n) + (Quoted(name) + (Tabs(2) + quoted));
    ReadQuoted(n, name, Tabs(2) + quoted);
    TokenAfterTabs(2, quoted);
    TokenAtQuote(quoted);
    assert quoted[1..] == value[..j] + [QUOTE] + rest;
    NoQuoteBefore(value, j);
    UntilQuoteUnique(quoted[1..], value[..j], rest);
  }

  lemma NoQuoteBefore(value: Text, j: nat)
    requires SpoilsAt(value, j)
    ensures QUOTE !in value[..j]
  {
  }

  lemma NoTokenHere(value: Text, j: nat, tail: Text, subkeys: seq<Node>, e: bool)
    requires SpoilsAt(value, j)
    ensures ParseKeys(value[j + 1..] + tail, subkeys, e) == None
  {
    var s := value[j + 1..] + tail;
    assert s[0] == value[j + 1];
    assert Token(s) == Some(s);
  }

  lemma {:induction false} PrintKeysJoin(a: seq<Node>, b: seq<Node>, indent: nat)
    ensures PrintKeys(a + b, indent) == PrintKeys(a, indent) + PrintKeys(b, indent)
  {
    hide PrintKey;
    TailOfJoin(a, b);
    if a != [] {
      PrintKeysJoin(a[1..], b, indent);
      AppendAssociates(PrintKey(a[0], indent), PrintKeys(a[1..], indent), PrintKeys(b, indent));
    } else {
      assert PrintKeys(a, indent) + PrintKeys(b, indent) == PrintKeys(b, indent);
    }
  }

  /** Parsing fails at a spoiled subkey behind others that can be read. */
  lemma {:induction false} SpoiledList(ks: seq<Node>, i: nat, indent: nat, subkeys: seq<Node>, rest: Text, e: bool)
    requires i < |ks| && Quotable(ks[..i]) && Spoiled(ks[i])
    ensures ParseKeys(PrintKeys(ks, indent) + rest, subkeys, e) == None
    decreases ks, 0
  {
    hide ParseKeys, PrintKey, AbsorbAll, Quotable, Spoiled;
    var before, after := ks[..i], ks[i + 1..];
    assert ks == before + ([ks[i]] + after);
    PrintKeysJoin(before, [ks[i]] + after, indent);
    assert ([ks[i]] + after)[1..] == after;
    var tail := PrintKeys(after, indent) + rest;
    assert PrintKeys(ks, indent) + rest == PrintKeys(before, indent) + (PrintKey(ks[i], indent) + tail);
    ParsePrintedKeys(before, indent, subkeys, PrintKey(ks[i], indent) + tail, e);
    SpoiledKey(ks[i], indent, AbsorbAll(subkeys, before), tail, e);
  }

  lemma {:induction false} SpoiledKey(k: Node, indent: nat, subkeys: seq<Node>, tail: Text, e: bool)
    requires Spoiled(k)
    ensures ParseKeys(PrintKey(k, indent) + tail, subkeys, e) == None
    decreases k, 1
  {
    if k.str != [] {
      var j :| 0 <= j < |k.str| && SpoilsAt(k.str, j);
      ReadSpoiledLine(indent, k.name, k.str, j, tail);
      NoTokenHere(k.str, j, [QUOTE] + ([LF] + tail), SetString(subkeys, CStr(k.name), k.str[..j]), e);
    } else {
      var i :| 0 <= i < |k.subkeys| && Quotable(k.subkeys[..i]) && Spoiled(k.subkeys[i]);
      SpoiledBranch(k, i, indent, subkeys, tail, e);
    }
  }

  lemma {:induction false} SpoiledBranch(k: Node, i: nat, indent: nat, subkeys: seq<Node>, tail: Text, e: bool)
    requires k.str == [] && QUOTE !in CStr(k.name)
    requires i < |k.subkeys| && Quotable(k.subkeys[..i]) && Spoiled(k.subkeys[i])
    ensures ParseKeys(PrintKey(k, indent) + tail, subkeys, e) == None
    decreases k, 0
  {
    var inside := PrintKeys(k.subkeys, indent + 1);
    var closing := Tabs(indent) + ([CLOSE] + ([LF] + tail));
    var found := SubkeysOf(subkeys, CStr(k.name));
    BranchText(k, indent, tail);
    ReadOpening(indent, k.name, indent, [LF] + (inside + closing));
    ParseAfterLine(inside + closing, found, true);
    SpoiledList(k.subkeys, i, indent + 1, found, closing, true);
    OpeningFails(PrintKey(k, indent) + tail, CStr(k.name), [LF] + (inside + closing), subkeys, e);
  }

  lemma OpeningFails(s: Text, name: Text, rest: Text, subkeys: seq<Node>, e: bool)
    requires ReadEntry(s) == Opening(name, rest)
    requires ParseKeys(rest, SubkeysOf(subkeys, name), true) == None
    ensures ParseKeys(s, subkeys, e) == None
  {
  }

  /** One such string anywhere makes the whole text unreadable. */
  lemma SpoiledTreeIsUnreadable(ks: seq<Node>, i: nat)
    requires i < |ks| && Quotable(ks[..i]) && Spoiled(ks[i])
    ensures ParseText(PrintBody(ks, 0)) == None
  {
    SpoiledList(ks, i, 0, [], [], false);
    assert PrintKeys(ks, 0) + [] == PrintKeys(ks, 0);
  }

  /** A printed tree never starts with a byte-order mark, and prints nothing only when nothing is kept. */
  lemma {:induction false} PrintedStart(ks: seq<Node>)
    ensures var text := PrintBody(ks, 0);
      WithoutBom(text) == text && (text == [] <==> Pruned(ks) == [])
  {
    if ks != [] {
      PrintedStart(ks[1..]);
      if Skipped(ks[0]) {
        assert PrintKeys(ks, 0) == PrintKeys(ks[1..], 0);
      } else {
        assert PrintKey(ks[0], 0)[0] == QUOTE;
        assert PrintKeys(ks, 0)[0] == QUOTE;
      }
    }
  }
}
