/**
 What is read back of a printed tree, part by part: subkeys under their own names, and lists
 keyed by numbers, in which the last entry for a number takes the place of the first.
 */
module KeyValueRecords {
  import opened Prelude
  import opened Numbers
  import opened KeyValues
  import opened KeyValueRoundTrip

  // ---------------------------------------------------- subkeys with own names

  lemma {:induction false} AbsorbJoin(acc: seq<Node>, a: seq<Node>, b: seq<Node>)
    ensures AbsorbAll(acc, a + b) == AbsorbAll(AbsorbAll(acc, a), b)
    decreases a
  {
    hide Absorb;
    TailOfJoin(a, b);
    if a != [] {
      AbsorbJoin(Absorb(acc, a[0]), a[1..], b);
    }
  }

  /** Different names without NULs. */
  predicate OwnNames(ks: seq<Node>) {
    DistinctNames(ks) && forall k <- ks :: NUL !in k.name
  }

  /** What one subkey is read back as. */
  function Reread(k: Node): Node {
    if k.str != [] then Node(k.name, [], CStr(k.str)) else Node(k.name, AbsorbAll([], k.subkeys), [])
  }

  function RereadAll(ks: seq<Node>): seq<Node> {
    if ks == [] then []
    else (if Skipped(ks[0]) then [] else [Reread(ks[0])]) + RereadAll(ks[1..])
  }

  lemma OwnNamesTail(ks: seq<Node>)
    requires ks != [] && OwnNames(ks)
    ensures OwnNames(ks[1..]) && NUL !in ks[0].name && forall k <- ks[1..] :: k.name != ks[0].name
  {
    var rest := ks[1..];
    assert forall i :: 0 <= i < |rest| ==> rest[i] == ks[i + 1];
    assert ks[0] in ks && forall k <- rest :: k in ks;
  }

  lemma AbsorbOne(acc: seq<Node>, k: Node)
    requires NUL !in k.name && forall x <- acc :: x.name != k.name
    ensures Absorb(acc, k) == acc + if Skipped(k) then [] else [Reread(k)]
  {
    AbsorbFresh(acc, k.name);
  }

  lemma {:induction false} AbsorbOwnNames(acc: seq<Node>, ks: seq<Node>)
    requires OwnNames(ks) && forall x <- acc, k <- ks :: x.name != k.name
    ensures AbsorbAll(acc, ks) == acc + RereadAll(ks)
    decreases ks
  {
    if ks == [] {
      assert acc + [] == acc;
    } else {
      hide Absorb, Reread, OwnNames;
      var more := acc + if Skipped(ks[0]) then [] else [Reread(ks[0])];
      OwnNamesTail(ks);
      assert ks[0] in ks && forall k <- ks[1..] :: k in ks;
      AbsorbOne(acc, ks[0]);
      RereadNames(ks[0]);
      AbsorbOwnNames(more, ks[1..]);
      AppendAssociates(acc, if Skipped(ks[0]) then [] else [Reread(ks[0])], RereadAll(ks[1..]));
    }
  }

  lemma RereadNames(k: Node)
    ensures Reread(k).name == k.name
  {
  }

  lemma {:induction false} RereadLacks(ks: seq<Node>, name: Text)
    requires forall k <- ks :: k.name != name
    ensures GetSubkey(RereadAll(ks), name) == None
  {
    if ks != [] {
      hide Reread, GetSubkey;
      assert ks[0] in ks && forall k <- ks[1..] :: k in ks;
      RereadLacks(ks[1..], name);
      if !Skipped(ks[0]) {
        RereadNames(ks[0]);
        GetAfterFirst(Reread(ks[0]), RereadAll(ks[1..]), name);
      } else {
        assert RereadAll(ks) == RereadAll(ks[1..]);
      }
    }
  }

  lemma GetAfterFirst(k: Node, ks: seq<Node>, name: Text)
    ensures GetSubkey([k] + ks, name) == if k.name == name then Some(k) else GetSubkey(ks, name)
  {
    assert ([k] + ks)[1..] == ks;
  }

  /** Each subkey is found under its name as it was read back. */
  lemma {:induction false} RereadHas(ks: seq<Node>, i: nat)
    requires OwnNames(ks) && i < |ks|
    ensures GetSubkey(RereadAll(ks), ks[i].name) == if Skipped(ks[i]) then None else Some(Reread(ks[i]))
  {
    hide Reread, GetSubkey, OwnNames;
    OwnNamesTail(ks);
    RereadNames(ks[0]);
    if i == 0 {
      RereadLacks(ks[1..], ks[0].name);
    } else {
      RereadHas(ks[1..], i - 1);
      assert ks[1..][i - 1] == ks[i] && ks[i] in ks[1..];
    }
    if !Skipped(ks[0]) {
      GetAfterFirst(Reread(ks[0]), RereadAll(ks[1..]), ks[i].name);
    } else {
      assert RereadAll(ks) == RereadAll(ks[1..]);
    }
  }

  /** So the subkeys under a name are those that were written there, read back, and a string is its C string. */
  lemma FoundAgain(ks: seq<Node>, i: nat)
    requires OwnNames(ks) && i < |ks|
    ensures ks[i].str == [] ==> SubkeysIn(AbsorbAll([], ks), ks[i].name) == AbsorbAll([], ks[i].subkeys)
    ensures ks[i].str != [] ==> GetSubkey(AbsorbAll([], ks), ks[i].name) == Some(Node(ks[i].name, [], CStr(ks[i].str)))
    ensures GetSubkey(AbsorbAll([], ks), ks[i].name).None? <==> Skipped(ks[i])
  {
    hide OwnNames;
    AbsorbOwnNames([], ks);
    assert [] + RereadAll(ks) == RereadAll(ks);
    RereadHas(ks, i);
  }

  lemma NotFoundAgain(ks: seq<Node>, name: Text)
    requires OwnNames(ks) && forall k <- ks :: k.name != name
    ensures GetSubkey(AbsorbAll([], ks), name) == None && SubkeysIn(AbsorbAll([], ks), name) == []
  {
    hide OwnNames;
    AbsorbOwnNames([], ks);
    assert [] + RereadAll(ks) == RereadAll(ks);
    RereadLacks(ks, name);
  }

  // --------------------------------------------------- lists keyed by numbers

  /** Place of the first entry for a key, or the number of entries. */
  function PlaceOf<V>(es: seq<(uint64, V)>, key: uint64): (i: nat)
    ensures i <= |es|
    ensures i < |es| ==> es[i].0 == key
    ensures forall j :: 0 <= j < i ==> es[j].0 != key
  {
    if es == [] || es[0].0 == key then 0 else 1 + PlaceOf(es[1..], key)
  }

  /** The entry takes the place of one for the same key, or comes last. */
  function Put<V>(es: seq<(uint64, V)>, e: (uint64, V)): seq<(uint64, V)> {
    var i := PlaceOf(es, e.0);
    if i < |es| then es[i := e] else es + [e]
  }

  function PutAll<V>(acc: seq<(uint64, V)>, es: seq<(uint64, V)>): seq<(uint64, V)>
    decreases es
  {
    if es == [] then acc else PutAll(Put(acc, es[0]), es[1..])
  }

  predicate DistinctKeys<V>(es: seq<(uint64, V)>) {
    forall i, j :: 0 <= i < j < |es| ==> es[i].0 != es[j].0
  }

  lemma PutKeepsDistinct<V>(es: seq<(uint64, V)>, e: (uint64, V))
    requires DistinctKeys(es)
    ensures DistinctKeys(Put(es, e))
  {
  }

  lemma {:induction false} PutAllIsDistinct<V>(acc: seq<(uint64, V)>, es: seq<(uint64, V)>)
    requires DistinctKeys(acc)
    ensures DistinctKeys(PutAll(acc, es))
    decreases es
  {
    hide Put, DistinctKeys;
    if es != [] {
      PutKeepsDistinct(acc, es[0]);
      PutAllIsDistinct(Put(acc, es[0]), es[1..]);
    }
  }

  lemma {:induction false} PutAllAppends<V>(acc: seq<(uint64, V)>, es: seq<(uint64, V)>)
    requires DistinctKeys(acc + es)
    ensures PutAll(acc, es) == acc + es
    decreases es
  {
    if es == [] {
      assert acc + es == acc;
    } else {
      var all := acc + es;
      assert all[|acc|] == es[0] && forall j :: 0 <= j < |acc| ==> all[j] == acc[j];
      assert Put(acc, es[0]) == acc + [es[0]];
      assert acc + [es[0]] + es[1..] == all;
      PutAllAppends(acc + [es[0]], es[1..]);
    }
  }

  /** Nothing is lost exactly when no key comes twice. */
  lemma NothingTwice<V>(es: seq<(uint64, V)>)
    ensures PutAll([], es) == es <==> DistinctKeys(es)
  {
    PutAllIsDistinct([], es);
    if DistinctKeys(es) {
      assert [] + es == es;
      PutAllAppends([], es);
    }
  }

  /** The last entry for a key is what is found. */
  lemma {:induction false} LastCounts<V>(acc: seq<(uint64, V)>, es: seq<(uint64, V)>, key: uint64)
    ensures var all, i := PutAll(acc, es), PlaceOf(PutAll(acc, es), key);
      if exists e <- es :: e.0 == key then
        i < |all| && exists k :: 0 <= k < |es| && es[k] == all[i] && forall j :: k < j < |es| ==> es[j].0 != key
      else (i < |all| <==> PlaceOf(acc, key) < |acc|) && (i < |all| ==> all[i] == acc[PlaceOf(acc, key)])
    decreases es
  {
    if es != [] {
      var e, rest := es[0], es[1..];
      PutFinds(acc, e, key);
      LastCounts(Put(acc, e), rest, key);
      assert forall x :: x in es <==> x == e || x in rest;
      assert forall j :: 0 <= j < |rest| ==> rest[j] == es[j + 1];
      if exists x <- rest :: x.0 == key {
        var all, i := PutAll(acc, es), PlaceOf(PutAll(acc, es), key);
        var k :| 0 <= k < |rest| && rest[k] == all[i] && forall j :: k < j < |rest| ==> rest[j].0 != key;
        assert es[k + 1] == all[i];
      } else if e.0 == key {
        assert es[0] == e;
      }
    }
  }

  lemma PutFinds<V>(es: seq<(uint64, V)>, e: (uint64, V), key: uint64)
    ensures var all, i := Put(es, e), PlaceOf(Put(es, e), key);
      if key == e.0 then i < |all| && all[i] == e
      else (i < |all| <==> PlaceOf(es, key) < |es|) && (i < |all| ==> all[i] == es[PlaceOf(es, key)])
  {
    var all, p, k := Put(es, e), PlaceOf(es, e.0), PlaceOf(es, key);
    assert p < |es| ==> forall j :: 0 <= j < |es| && j != p ==> all[j] == es[j];
    assert p == |es| ==> forall j :: 0 <= j < |es| ==> all[j] == es[j];
    if key == e.0 {
      assert all[p] == e;
      PlaceIs(all, key, p);
    } else if k < |es| {
      assert all[k] == es[k];
      PlaceIs(all, key, k);
    } else {
      assert forall j :: 0 <= j < |all| ==> all[j].0 != key;
    }
  }

  lemma PlaceIs<V>(es: seq<(uint64, V)>, key: uint64, k: nat)
    requires k < |es| && es[k].0 == key && forall j :: 0 <= j < k ==> es[j].0 != key
    ensures PlaceOf(es, key) == k
  {
    var i := PlaceOf(es, key);
    assert i <= k;
  }

  /** What stands under a name. */
  datatype Content = Content(subkeys: seq<Node>, str: Text)

  /** The subkeys of a list: each entry under its number in decimal. */
  function NodesOf(es: seq<(uint64, Content)>): seq<Node> {
    seq(|es|, i requires 0 <= i < |es| => NodeOf(es[i]))
  }

  function NodeOf(e: (uint64, Content)): Node {
    Node(FormatInt(e.0), e.1.subkeys, e.1.str)
  }

  /** Reading d over c gives d, as it does over nothing. */
  predicate Replaces(c: Content, d: Content) {
    && NUL !in d.str && (d.str != [] || d.subkeys != [])
    && if d.str != [] then c.subkeys == d.subkeys == []
       else c.str == [] && AbsorbAll(c.subkeys, d.subkeys) == d.subkeys == AbsorbAll([], d.subkeys)
  }

  /** Entries that replace one another. */
  predicate Uniform(cs: seq<(uint64, Content)>, ds: seq<(uint64, Content)>) {
    forall c <- cs, d <- ds :: Replaces(c.1, d.1)
  }

  lemma {:induction false} IndexOfKey(es: seq<(uint64, Content)>, key: uint64)
    ensures IndexOf(NodesOf(es), FormatInt(key)) == PlaceOf(es, key)
  {
    if es != [] {
      FormatIsInjective(es[0].0, key);
      IndexOfKey(es[1..], key);
      assert NodesOf(es)[1..] == NodesOf(es[1..]);
    }
  }

  lemma FormatHasNoNul(n: nat)
    ensures NUL !in FormatInt(n) && CStr(FormatInt(n)) == FormatInt(n)
  {
  }

  lemma AbsorbEntry(es: seq<(uint64, Content)>, e: (uint64, Content))
    requires forall c <- es :: Replaces(c.1, e.1)
    requires Replaces(e.1, e.1)
    ensures Absorb(NodesOf(es), NodeOf(e)) == NodesOf(Put(es, e))
  {
    hide FormatInt, AbsorbAll, CStr, Replaces;
    FormatHasNoNul(e.0);
    IndexOfKey(es, e.0);
    var i, ks := PlaceOf(es, e.0), NodesOf(es);
    if i < |es| {
      assert es[i] in es;
      EntryReplaces(ks, i, es[i], e);
      assert NodesOf(Put(es, e)) == ks[i := NodeOf(e)];
    } else {
      EntryIsAppended(ks, e);
      assert NodesOf(Put(es, e)) == ks + [NodeOf(e)];
    }
  }

  lemma EntryReplaces(ks: seq<Node>, i: nat, c: (uint64, Content), e: (uint64, Content))
    requires Replaces(c.1, e.1) && c.0 == e.0 && i < |ks| && ks[i] == NodeOf(c)
    requires IndexOf(ks, FormatInt(e.0)) == i && CStr(FormatInt(e.0)) == FormatInt(e.0)
    ensures Absorb(ks, NodeOf(e)) == ks[i := NodeOf(e)]
  {
    hide FormatInt;
  }

  lemma EntryIsAppended(ks: seq<Node>, e: (uint64, Content))
    requires Replaces(e.1, e.1) && IndexOf(ks, FormatInt(e.0)) == |ks| && CStr(FormatInt(e.0)) == FormatInt(e.0)
    ensures Absorb(ks, NodeOf(e)) == ks + [NodeOf(e)]
  {
    hide FormatInt, SetString, SetSubkeys, SubkeysOf;
    AbsorbFresh(ks, FormatInt(e.0));
  }

  lemma {:induction false} AbsorbEntries(acc: seq<(uint64, Content)>, es: seq<(uint64, Content)>)
    requires Uniform(acc, es) && Uniform(es, es)
    ensures AbsorbAll(NodesOf(acc), NodesOf(es)) == NodesOf(PutAll(acc, es))
    decreases es
  {
    if es != [] {
      hide Replaces, Absorb;
      assert NodesOf(es)[0] == NodeOf(es[0]) && NodesOf(es)[1..] == NodesOf(es[1..]);
      assert es[0] in es && forall e <- es[1..] :: e in es;
      AbsorbEntry(acc, es[0]);
      assert forall c <- Put(acc, es[0]) :: c in acc || c == es[0];
      AbsorbEntries(Put(acc, es[0]), es[1..]);
    }
  }

  /** A list is read back with the last entry for each number in the place of the first. */
  lemma ListIsReadBack(es: seq<(uint64, Content)>)
    requires Uniform(es, es)
    ensures AbsorbAll([], NodesOf(es)) == NodesOf(PutAll([], es))
  {
    AbsorbEntries([], es);
    assert NodesOf([]) == [];
  }

  // ------------------------------------------------------------------ fields

  /** Named numbers. */
  function Field(name: Text, n: int): Node {
    Node(name, [], FormatInt(n))
  }

  function Fields(names: seq<Text>, values: seq<int>): seq<Node>
    requires |names| == |values|
  {
    seq(|names|, i requires 0 <= i < |names| => Field(names[i], values[i]))
  }

  /** Different names that can be printed as they are. */
  predicate FieldNames(names: seq<Text>) {
    && (forall i, j :: 0 <= i < j < |names| ==> names[i] != names[j])
    && forall name <- names :: CleanText(name)
  }

  lemma FieldsHaveOwnNames(names: seq<Text>, values: seq<int>)
    requires |names| == |values| && FieldNames(names)
    ensures OwnNames(Fields(names, values))
  {
    var ks := Fields(names, values);
    forall k | k in ks
      ensures NUL !in k.name
    {
      var i :| 0 <= i < |ks| && ks[i] == k;
      assert names[i] in names;
    }
  }

  lemma {:induction false} RereadFields(names: seq<Text>, values: seq<int>)
    requires |names| == |values|
    ensures RereadAll(Fields(names, values)) == Fields(names, values)
  {
    if names != [] {
      FieldIsReread(names[0], values[0]);
      RereadFields(names[1..], values[1..]);
      assert Fields(names, values)[1..] == Fields(names[1..], values[1..]);
    }
  }

  lemma FieldIsReread(name: Text, n: int)
    ensures Reread(Field(name, n)) == Field(name, n) && !Skipped(Field(name, n)) && NUL !in FormatInt(n)
  {
  }

  lemma FieldsAreRead(names: seq<Text>, values: seq<int>)
    requires |names| == |values| && FieldNames(names)
    ensures AbsorbAll([], Fields(names, values)) == Fields(names, values)
  {
    FieldsHaveOwnNames(names, values);
    AbsorbOwnNames([], Fields(names, values));
    RereadFields(names, values);
    assert [] + Fields(names, values) == Fields(names, values);
  }

  /** Fields of one kind replace one another. */
  lemma {:induction false} FieldsReplace(names: seq<Text>, previous: seq<int>, values: seq<int>, n: nat)
    requires |names| == |previous| == |values| && FieldNames(names) && n <= |names|
    ensures AbsorbAll(Fields(names, values[..n] + previous[n..]), Fields(names[n..], values[n..])) == Fields(names, values)
    decreases |names| - n
  {
    if n == |names| {
      assert values[..n] + previous[n..] == values && Fields(names[n..], values[n..]) == [];
    } else {
      var mixed := Mixed(previous, values, n);
      hide Absorb, AbsorbAll, FieldNames, Fields, Field;
      var rest := Fields(names[n + 1..], values[n + 1..]);
      FirstField(names, values, n);
      AbsorbFirst(Fields(names, mixed), Field(names[n], values[n]), rest);
      FieldReplaces(names, mixed, values[n], n);
      FieldsReplace(names, previous, values, n + 1);
    }
  }

  /** What is there once the first n fields have been replaced. */
  function Mixed(previous: seq<int>, values: seq<int>, n: nat): (mixed: seq<int>)
    requires |previous| == |values| && n <= |values|
    ensures |mixed| == |values|
    ensures n < |values| ==> mixed[n := values[n]] == values[..n + 1] + previous[n + 1..]
  {
    var mixed := values[..n] + previous[n..];
    assert n < |values| ==> mixed[n := values[n]] == values[..n + 1] + previous[n + 1..];
    mixed
  }

  lemma FirstField(names: seq<Text>, values: seq<int>, n: nat)
    requires |names| == |values| && n < |names|
    ensures Fields(names[n..], values[n..]) == [Field(names[n], values[n])] + Fields(names[n + 1..], values[n + 1..])
  {
    hide Field;
  }

  lemma AbsorbFirst(acc: seq<Node>, k: Node, ks: seq<Node>)
    ensures AbsorbAll(acc, [k] + ks) == AbsorbAll(Absorb(acc, k), ks)
  {
    hide Absorb;
    assert ([k] + ks)[1..] == ks;
  }

  lemma FieldReplaces(names: seq<Text>, values: seq<int>, v: int, n: nat)
    requires |names| == |values| && FieldNames(names) && n < |names|
    ensures Absorb(Fields(names, values), Field(names[n], v)) == Fields(names, values[n := v])
  {
    hide FormatInt;
    FieldIsReread(names[n], v);
    assert names[n] in names;
    assert CStr(names[n]) == names[n] && CStr(FormatInt(v)) == FormatInt(v);
    PlaceOfField(names, values, n);
    var ks := Fields(names, values);
    assert ks[n := ks[n].(str := FormatInt(v))] == Fields(names, values[n := v]);
  }

  lemma PlaceOfField(names: seq<Text>, values: seq<int>, n: nat)
    requires |names| == |values| && FieldNames(names) && n < |names|
    ensures IndexOf(Fields(names, values), names[n]) == n
  {
    var ks, i := Fields(names, values), IndexOf(Fields(names, values), names[n]);
    assert ks[n].name == names[n];
    assert i <= n && ks[i].name == names[i];
  }

  lemma FieldsAreFound(names: seq<Text>, values: seq<int>, n: nat)
    requires |names| == |values| && FieldNames(names) && n < |names|
    ensures GetSubkey(Fields(names, values), names[n]) == Some(Field(names[n], values[n]))
  {
    PlaceOfField(names, values, n);
  }
}
