/**
 The KeyValues tree, its text printer and its recursive cursor parser
 (keyvalue.cpp).  The parser is a class that advances a position in place; what it
 computes is given by functions on the text that is still unread.
 */
module KeyValues {
  import opened Prelude

  const NUL: byte := 0
  const TAB: byte := 9
  const LF: byte := 10
  const SPACE: byte := 32
  const QUOTE: byte := 34
  const SLASH: byte := 47
  const OPEN: byte := 123
  const CLOSE: byte := 125

  datatype Node = Node(name: Text, subkeys: seq<Node>, str: Text)

  // ---------------------------------------------------------------- reading

  /** `*m_ptr > ' '` on a plain char, which is signed on the platforms the game runs on. */
  predicate Visible(b: byte) {
    SPACE < b < 0x80
  }

  /** The text from the next line feed on, empty when there is none. */
  function AfterComment(s: Text): (r: Text)
    ensures |r| <= |s|
  {
    if s == [] || s[0] == LF then s else AfterComment(s[1..])
  }

  /** The text from the next token on, None at the end of the file. */
  function Token(s: Text): (r: Option<Text>)
    ensures r.Some? ==> 0 < |r.value| <= |s| && Visible(r.value[0])
    decreases |s|
  {
    if s == [] then None
    else if !Visible(s[0]) then Token(s[1..])
    else if s[0] != SLASH || |s| < 2 || s[1] != SLASH then Some(s)
    else Token(AfterComment(s[2..]))
  }

  /** Splits at the first quote: what stands before it and what follows it. */
  function UntilQuote(s: Text): (r: Option<(Text, Text)>)
    ensures r.Some? ==> QUOTE !in r.value.0 && s == r.value.0 + [QUOTE] + r.value.1
    ensures r.None? ==> QUOTE !in s
  {
    if s == [] then None
    else if s[0] == QUOTE then Some(([], s[1..]))
    else match UntilQuote(s[1..])
      case None => None
      case Some((before, after)) => Some(([s[0]] + before, after))
  }

  /** Position of the first subkey with this name, or the number of subkeys. */
  function IndexOf(subkeys: seq<Node>, name: Text): (i: nat)
    ensures i <= |subkeys|
    ensures i < |subkeys| ==> subkeys[i].name == name
    ensures forall j :: 0 <= j < i ==> subkeys[j].name != name
  {
    if subkeys == [] || subkeys[0].name == name then 0 else 1 + IndexOf(subkeys[1..], name)
  }

  function GetSubkey(ks: seq<Node>, name: Text): Option<Node> {
    var i := IndexOf(ks, name);
    if i < |ks| then Some(ks[i]) else None
  }

  function SubkeysIn(ks: seq<Node>, name: Text): seq<Node> {
    match GetSubkey(ks, name)
    case None => []
    case Some(k) => k.subkeys
  }

  function FindOrCreate(subkeys: seq<Node>, name: Text): (r: seq<Node>)
    ensures IndexOf(subkeys, name) < |r|
    ensures r[IndexOf(subkeys, name)].name == name
    ensures |subkeys| <= |r| && r[..|subkeys|] == subkeys
  {
    if IndexOf(subkeys, name) < |subkeys| then subkeys else subkeys + [Node(name, [], [])]
  }

  function SetString(subkeys: seq<Node>, name: Text, value: Text): seq<Node> {
    var i, found := IndexOf(subkeys, name), FindOrCreate(subkeys, name);
    found[i := found[i].(str := value)]
  }

  function SetSubkeys(subkeys: seq<Node>, name: Text, inner: seq<Node>): seq<Node> {
    var i, found := IndexOf(subkeys, name), FindOrCreate(subkeys, name);
    found[i := found[i].(subkeys := inner)]
  }

  function SubkeysOf(subkeys: seq<Node>, name: Text): seq<Node> {
    FindOrCreate(subkeys, name)[IndexOf(subkeys, name)].subkeys
  }

  /** One round of the parser's loop, before the tree is touched. */
  datatype Entry =
    | EndOfText
    | Closing(rest: Text)
    | Leaf(name: Text, value: Text, rest: Text)
    | Opening(name: Text, rest: Text)
    | Malformed

  function ReadEntry(s: Text): (e: Entry)
    ensures !e.EndOfText? && !e.Malformed? ==> |e.rest| < |s|
  {
    match Token(s)
    case None => EndOfText
    case Some(t) =>
      if t[0] == CLOSE then Closing(t[1..])
      else if t[0] != QUOTE then Malformed
      else match UntilQuote(t[1..])
        case None => Malformed
        case Some((name, u)) =>
          match Token(u)
          case None => Malformed
          case Some(v) =>
            if v[0] == QUOTE then
              match UntilQuote(v[1..])
              case None => Malformed
              case Some((value, w)) => Leaf(name, value, w)
            else if v[0] == OPEN then Opening(name, v[1..])
            else Malformed
  }

  /** What parsing `s` makes of the subkeys read so far, and the text left over. */
  function ParseKeys(s: Text, subkeys: seq<Node>, expectClosingBrace: bool): (r: Option<(seq<Node>, Text)>)
    ensures r.Some? ==> |r.value.1| <= |s|
    decreases |s|
  {
    match ReadEntry(s)
    case EndOfText => if expectClosingBrace then None else Some((subkeys, []))
    case Closing(rest) => if expectClosingBrace then Some((subkeys, rest)) else None
    case Leaf(name, value, rest) => ParseKeys(rest, SetString(subkeys, name, value), expectClosingBrace)
    case Opening(name, rest) =>
      (match ParseKeys(rest, SubkeysOf(subkeys, name), true)
       case None => None
       case Some((inner, after)) => ParseKeys(after, SetSubkeys(subkeys, name, inner), expectClosingBrace))
    case Malformed => None
  }

  function ParseText(s: Text): Option<seq<Node>> {
    match ParseKeys(s, [], false)
    case None => None
    case Some((subkeys, _)) => Some(subkeys)
  }

  lemma TokenHere(text: Text, i: nat)
    requires i < |text| && Visible(text[i])
    requires text[i] != SLASH || |text| - i < 2 || text[i + 1] != SLASH
    ensures Token(text[i..]) == Some(text[i..])
  {
  }

  lemma TokenSkipsBlank(text: Text, i: nat)
    requires i < |text| && !Visible(text[i])
    ensures Token(text[i..]) == Token(text[i + 1..])
  {
    assert text[i..][1..] == text[i + 1..];
  }

  lemma {:induction false} AfterCommentStops(text: Text, i: nat, j: nat)
    requires i <= j <= |text| && LF !in text[i..j]
    requires j < |text| ==> text[j] == LF
    ensures AfterComment(text[i..]) == text[j..]
    decreases j - i
  {
    if i < j {
      assert text[i] in text[i..j];
      assert text[i..][1..] == text[i + 1..];
      AfterCommentStops(text, i + 1, j);
    }
  }

  lemma TokenSkipsComment(text: Text, i: nat, j: nat)
    requires i + 2 <= j <= |text| && text[i] == text[i + 1] == SLASH
    requires LF !in text[i + 2..j]
    requires j < |text| ==> text[j] == LF
    ensures Token(text[i..]) == Token(text[j..])
  {
    assert text[i..][2..] == text[i + 2..];
    AfterCommentStops(text, i + 2, j);
  }

  /** The parser of keyvalue.cpp: a cursor that only ever moves forward. */
  class KeyValueParser {
    const text: Text
    var pos: nat

    constructor (text: Text)
      ensures this.text == text && pos == 0
    {
      this.text := text;
      pos := 0;
    }

    ghost predicate Valid()
      reads this
    {
      pos <= |text|
    }

    ghost function Rest(): Text
      requires Valid()
      reads this
    {
      text[pos..]
    }

    predicate IsEndOfFile()
      reads this
    {
      pos >= |text|
    }

    method SkipBlanks()
      requires Valid()
      modifies `pos
      ensures Valid() && old(pos) <= pos
      ensures Token(Rest()) == Token(old(Rest()))
      ensures pos < |text| ==> Visible(text[pos])
    {
      hide Token;
      while !IsEndOfFile() && !Visible(text[pos])
        invariant Valid() && old(pos) <= pos
        invariant Token(Rest()) == Token(old(Rest()))
        decreases |text| - pos
      {
        TokenSkipsBlank(text, pos);
        pos := pos + 1;
      }
    }

    method SkipComment()
      requires pos + 2 <= |text| && text[pos] == text[pos + 1] == SLASH
      modifies `pos
      ensures Valid() && old(pos) < pos
      ensures Token(Rest()) == Token(old(Rest()))
    {
      hide Token;
      pos := pos + 2;
      while !IsEndOfFile() && text[pos] != LF
        invariant old(pos) + 2 <= pos <= |text|
        invariant LF !in text[old(pos) + 2..pos]
        decreases |text| - pos
      {
        pos := pos + 1;
      }
      TokenSkipsComment(text, old(pos), pos);
    }

    /** Skips blanks and comments; false at the end of the file. */
    method NextToken() returns (found: bool)
      requires Valid()
      modifies `pos
      ensures Valid() && old(pos) <= pos
      ensures found <==> Token(old(Rest())).Some?
      ensures found ==> Rest() == Token(old(Rest())).value
      ensures !found ==> pos == |text|
    {
      assert Token([]) == None;
      hide Token;
      while true
        invariant Valid() && old(pos) <= pos
        invariant Token(Rest()) == Token(old(Rest()))
        decreases |text| - pos
      {
        SkipBlanks();
        if IsEndOfFile() {
          assert Rest() == [];
          return false;
        }
        if text[pos] != SLASH || |text| - pos < 2 || text[pos + 1] != SLASH {
          TokenHere(text, pos);
          return true;
        }
        SkipComment();
        if IsEndOfFile() {
          assert Rest() == [];
          return false;
        }
      }
    }

    method ParseString() returns (ok: bool, str: Text)
      requires Valid() && !IsEndOfFile()
      modifies `pos
      ensures Valid() && old(pos) < pos
      ensures ok <==> UntilQuote(old(Rest())[1..]).Some?
      ensures ok ==> (str, Rest()) == UntilQuote(old(Rest())[1..]).value
      ensures !ok ==> pos == |text|
    {
      hide UntilQuote;
      assert Rest()[1..] == text[pos + 1..];
      pos := pos + 1;
      var start := pos;
      while !IsEndOfFile() && text[pos] != QUOTE
        invariant start <= pos <= |text|
        invariant QUOTE !in text[start..pos]
        decreases |text| - pos
      {
        pos := pos + 1;
      }
      assert text[start..] == text[start..pos] + text[pos..];
      if IsEndOfFile() {
        UntilQuoteUnique(text[start..], text[start..], []);
        return false, [];
      }
      str := text[start..pos];
      assert text[pos..] == [QUOTE] + text[pos + 1..];
      UntilQuoteUnique(text[start..], str, text[pos + 1..]);
      pos := pos + 1;
      return true, str;
    }

    function PeekCharacter(): byte
      requires !IsEndOfFile()
      reads this
    {
      text[pos]
    }

    method SkipCharacter()
      requires !IsEndOfFile()
      modifies `pos
      ensures pos == old(pos) + 1
    {
      pos := pos + 1;
    }

    /** The reading half of one round of KeyValue::Parse, up to a value or an opening brace. */
    method NextEntry() returns (entry: Entry)
      requires Valid()
      modifies `pos
      ensures Valid() && old(pos) <= pos
      ensures entry == ReadEntry(old(Rest()))
      ensures !entry.EndOfText? && !entry.Malformed? ==> Rest() == entry.rest && old(pos) < pos
      ensures entry.EndOfText? ==> pos == |text|
    {
      hide Token, UntilQuote;
      var found := NextToken();
      if !found {
        return EndOfText;
      }
      if PeekCharacter() == CLOSE {
        SkipCharacter();
        return Closing(text[pos..]);
      }
      if PeekCharacter() != QUOTE {
        return Malformed;
      }
      var named, name := ParseString();
      if !named {
        return Malformed;
      }
      found := NextToken();
      if !found {
        return Malformed;
      }
      if PeekCharacter() == QUOTE {
        var valued, value := ParseString();
        return if valued then Leaf(name, value, text[pos..]) else Malformed;
      }
      if PeekCharacter() == OPEN {
        SkipCharacter();
        return Opening(name, text[pos..]);
      }
      return Malformed;
    }

    /** KeyValue::Parse: extends the node's subkeys, leaving the cursor after what was read. */
    method Parse(node: Node, expectClosingBrace: bool) returns (ok: bool, parsed: Node)
      requires Valid()
      modifies `pos
      ensures Valid() && old(pos) <= pos
      ensures ok <==> ParseKeys(old(Rest()), node.subkeys, expectClosingBrace).Some?
      ensures ok ==> (parsed.subkeys, Rest()) == ParseKeys(old(Rest()), node.subkeys, expectClosingBrace).value
      ensures ok ==> parsed.name == node.name && parsed.str == node.str
      decreases |text| - pos
    {
      parsed := node;
      while true
        invariant Valid() && old(pos) <= pos
        invariant parsed.name == node.name && parsed.str == node.str
        invariant ParseKeys(Rest(), parsed.subkeys, expectClosingBrace)
               == ParseKeys(old(Rest()), node.subkeys, expectClosingBrace)
        decreases |text| - pos
      {
        var entry := NextEntry();
        match entry
        case EndOfText =>
          assert Rest() == [];
          return !expectClosingBrace, parsed;
        case Closing(_) =>
          return expectClosingBrace, parsed;
        case Leaf(name, value, _) =>
          parsed := parsed.(subkeys := SetString(parsed.subkeys, name, value));
        case Opening(name, _) =>
          var current := FindOrCreate(parsed.subkeys, name)[IndexOf(parsed.subkeys, name)];
          var nested, inner := Parse(current, true);
          if !nested {
            return false, parsed;
          }
          parsed := parsed.(subkeys := SetSubkeys(parsed.subkeys, name, inner.subkeys));
        case Malformed =>
          return false, parsed;
      }
    }
  }

  /** A text splits at its first quote in one way only. */
  lemma {:induction false} UntilQuoteUnique(s: Text, before: Text, after: Text)
    requires QUOTE !in before
    ensures s == before + [QUOTE] + after ==> UntilQuote(s) == Some((before, after))
    ensures s == before ==> UntilQuote(s) == None
  {
    if before == [] {
      assert s == [QUOTE] + after ==> s[0] == QUOTE && s[1..] == after;
    } else {
      if s == before {
        UntilQuoteUnique(s[1..], before[1..], after);
      }
      if s == before + [QUOTE] + after {
        assert s[1..] == before[1..] + [QUOTE] + after;
        UntilQuoteUnique(s[1..], before[1..], after);
        assert s[0] == before[0] && [before[0]] + before[1..] == before;
      }
    }
  }

  // ---------------------------------------------------------------- writing

  /** fputs and fprintf("%s") stop at the first NUL. */
  function CStr(s: Text): (r: Text)
    ensures NUL !in r && r <= s
    ensures NUL !in s ==> r == s
  {
    if s == [] || s[0] == NUL then [] else [s[0]] + CStr(s[1..])
  }

  function Tabs(n: nat): seq<byte> {
    if n == 0 then [] else [TAB] + Tabs(n - 1)
  }

  function Quoted(s: Text): Text {
    [QUOTE] + CStr(s) + [QUOTE]
  }

  function PrintLine(name: Text, value: Text): Text {
    Quoted(name) + [TAB, TAB] + Quoted(value) + [LF]
  }

  /** Subkeys with neither a string nor subkeys are not written. */
  predicate Skipped(k: Node) {
    k.str == [] && k.subkeys == []
  }

  function PrintKey(k: Node, indent: nat): Text
    decreases k, 1
  {
    if Skipped(k) then []
    else if k.str != [] then Tabs(indent) + PrintLine(k.name, k.str)
    else Tabs(indent) + (Quoted(k.name) + PrintBody(k.subkeys, indent + 1))
  }

  function PrintKeys(subkeys: seq<Node>, indent: nat): Text
    decreases subkeys, 0
  {
    if subkeys == [] then [] else PrintKey(subkeys[0], indent) + PrintKeys(subkeys[1..], indent)
  }

  /** KeyValue::WriteToFile: braces around the subkeys, except for the root. */
  function PrintBody(subkeys: seq<Node>, indent: nat): Text
    decreases subkeys, 1
  {
    if indent == 0 then PrintKeys(subkeys, 0)
    else [LF] + Tabs(indent - 1) + [OPEN, LF] + PrintKeys(subkeys, indent) + Tabs(indent - 1) + [CLOSE, LF]
  }

  lemma {:induction false} PrintKeysAppend(subkeys: seq<Node>, k: Node, indent: nat)
    ensures PrintKeys(subkeys + [k], indent) == PrintKeys(subkeys, indent) + PrintKey(k, indent)
  {
    if subkeys == [] {
      assert (subkeys + [k])[1..] == [];
    } else {
      assert (subkeys + [k])[1..] == subkeys[1..] + [k];
      PrintKeysAppend(subkeys[1..], k, indent);
    }
  }

  lemma PrintKeysNext(subkeys: seq<Node>, i: nat, indent: nat)
    requires i < |subkeys|
    ensures PrintKeys(subkeys[..i + 1], indent) == PrintKeys(subkeys[..i], indent) + PrintKey(subkeys[i], indent)
  {
    assert subkeys[..i + 1] == subkeys[..i] + [subkeys[i]];
    PrintKeysAppend(subkeys[..i], subkeys[i], indent);
  }

  lemma PrintKeysEnds(subkeys: seq<Node>, indent: nat)
    ensures PrintKeys(subkeys[..0], indent) == []
    ensures PrintKeys(subkeys[..|subkeys|], indent) == PrintKeys(subkeys, indent)
  {
    assert subkeys[..|subkeys|] == subkeys;
  }

  lemma {:induction false} TabsAppend(n: nat)
    ensures Tabs(n + 1) == Tabs(n) + [TAB]
  {
    if n > 0 {
      TabsAppend(n - 1);
    }
  }

  /** The FILE the tree is written to. */
  class OutputFile {
    var written: Text

    constructor ()
      ensures written == []
    {
      written := [];
    }

    method Puts(s: Text)
      modifies this
      ensures written == old(written) + CStr(s)
    {
      written := written + CStr(s);
    }

    method PutTabs(count: nat)
      modifies this
      ensures written == old(written) + Tabs(count)
    {
      for i := 0 to count
        invariant written == old(written) + Tabs(i)
      {
        TabsAppend(i);
        Puts([TAB]);
      }
    }

    method PutQuoted(s: Text)
      modifies this
      ensures written == old(written) + Quoted(s)
    {
      hide CStr;
      Puts([QUOTE]);
      Puts(s);
      assert written == old(written) + ([QUOTE] + CStr(s));
      Puts([QUOTE]);
    }

    method PutLine(name: Text, value: Text)
      modifies this
      ensures written == old(written) + PrintLine(name, value)
    {
      PutQuoted(name);
      Puts([TAB, TAB]);
      assert written == old(written) + (Quoted(name) + [TAB, TAB]);
      PutQuoted(value);
      assert written == old(written) + (Quoted(name) + [TAB, TAB] + Quoted(value));
      Puts([LF]);
    }

    method Write(node: Node, indent: nat)
      modifies this
      ensures written == old(written) + PrintBody(node.subkeys, indent)
      decreases node, 1
    {
      hide PrintKeys, CStr, Tabs;
      if indent == 0 {
        WriteSubkeys(node, 0);
      } else {
        OpenBrace(indent);
        ghost var head := [LF] + Tabs(indent - 1) + [OPEN, LF];
        WriteSubkeys(node, indent);
        ghost var body := PrintKeys(node.subkeys, indent);
        assert written == old(written) + (head + body);
        CloseBrace(indent);
        assert written == old(written) + (head + body + (Tabs(indent - 1) + [CLOSE, LF]));
        assert head + body + (Tabs(indent - 1) + [CLOSE, LF]) == PrintBody(node.subkeys, indent);
      }
    }

    method OpenBrace(indent: nat)
      requires indent != 0
      modifies this
      ensures written == old(written) + ([LF] + Tabs(indent - 1) + [OPEN, LF])
    {
      Puts([LF]);
      PutTabs(indent - 1);
      assert written == old(written) + ([LF] + Tabs(indent - 1));
      Puts([OPEN, LF]);
    }

    method CloseBrace(indent: nat)
      requires indent != 0
      modifies this
      ensures written == old(written) + (Tabs(indent - 1) + [CLOSE, LF])
    {
      PutTabs(indent - 1);
      Puts([CLOSE, LF]);
    }

    method WriteSubkeys(node: Node, indent: nat)
      modifies this
      ensures written == old(written) + PrintKeys(node.subkeys, indent)
      decreases node, 0
    {
      PrintKeysEnds(node.subkeys, indent);
      hide PrintKeys, PrintKey;
      for i := 0 to |node.subkeys|
        invariant written == old(written) + PrintKeys(node.subkeys[..i], indent)
      {
        WriteSubkey(node.subkeys[i], indent);
        PrintKeysNext(node.subkeys, i, indent);
      }
    }

    method WriteSubkey(subkey: Node, indent: nat)
      modifies this
      ensures written == old(written) + PrintKey(subkey, indent)
      decreases subkey, 2
    {
      hide PrintBody, PrintLine, Quoted, Tabs;
      if Skipped(subkey) {
        return;
      }
      PutTabs(indent);
      if subkey.str != [] {
        PutLine(subkey.name, subkey.str);
      } else {
        PutQuoted(subkey.name);
        assert written == old(written) + (Tabs(indent) + Quoted(subkey.name));
        Write(subkey, indent + 1);
      }
    }
  }

  // ------------------------------------------------------------------ files

  datatype FileRead = NotFound | ReadError | Contents(bytes: Text)

  datatype FileResult = Success | FileNotFound | Empty | ReadFailed | InvalidFormat

  const UTF8_BOM: Text := [0xef, 0xbb, 0xbf]

  function WithoutBom(s: Text): Text {
    if UTF8_BOM <= s then s[3..] else s
  }

  /** A KeyValue object: the tree it holds is replaced only by a successful parse. */
  class KeyValue {
    var root: Node

    constructor (name: Text)
      ensures root == Node(name, [], [])
    {
      root := Node(name, [], []);
    }

    method ParseFromFileDetailed(file: FileRead) returns (result: FileResult)
      modifies this
      ensures result == FileNotFound <==> file.NotFound?
      ensures result == ReadFailed <==> file.ReadError?
      ensures result == Empty <==> file.Contents? && WithoutBom(file.bytes) == []
      ensures result == Success <==>
        file.Contents? && WithoutBom(file.bytes) != [] && ParseText(WithoutBom(file.bytes)).Some?
      ensures result == Success ==> root == Node(old(root).name, ParseText(WithoutBom(file.bytes)).value, [])
      ensures result != Success ==> root == old(root)
    {
      if file.NotFound? {
        return FileNotFound;
      }
      if file.ReadError? {
        return ReadFailed;
      }
      if file.bytes == [] {
        return Empty;
      }
      var dataView := if UTF8_BOM <= file.bytes then file.bytes[3..] else file.bytes;
      if dataView == [] {
        return Empty;
      }
      var parser := new KeyValueParser(dataView);
      assert parser.Rest() == dataView;
      var ok, parsed := parser.Parse(Node(root.name, [], []), false);
      if !ok {
        return InvalidFormat;
      }
      root := parsed;
      return Success;
    }
  }
}
