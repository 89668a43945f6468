/** What holds of the stats store over every run of its operations. */
module StatsReload {
  import opened Prelude
  import opened Numbers
  import opened LocalUserStats
  import KV = KeyValues
  import RT = KeyValueRoundTrip

  // --------------------------------------------- sections are read as saved

  /** `parse` reads back what FormatInt wrote, for every value of the map. */
  ghost predicate Reads<T>(parse: Text -> Option<T>, values: map<Text, T>, numbers: map<Text, int>) {
    values.Keys == numbers.Keys && forall n <- numbers :: parse(FormatInt(numbers[n])) == Some(values[n])
  }

  lemma {:induction false} ReadLeaves<T>(names: seq<Text>, values: map<Text, T>, numbers: map<Text, int>,
                                         parse: Text -> Option<T>, taken: set<Text>, acc: map<Text, T>)
    requires Reads(parse, values, numbers) && SerializableNames(values.Keys)
    requires Sorted(names) && values.Keys !! taken
    requires forall n <- values :: n in names || n in acc
    requires forall n <- names :: n in values && n !in acc
    requires forall n <- acc :: n in values && acc[n] == values[n]
    ensures ReadSection(Leaves(names, numbers), parse, taken, acc) == Some(values)
  {
    if names == [] {
      assert acc == values;
    } else {
      var name := names[0];
      var acc' := acc[name := values[name]];
      forall n | n in names[1..]
        ensures n in values && n !in acc'
      {
        assert n in names;
        var i :| 0 <= i < |names[1..]| && names[1..][i] == n;
        assert names[0] != names[i + 1];
      }
      forall n | n in values
        ensures n in names[1..] || n in acc'
      {
        if n in names && n != name {
          var i :| 0 <= i < |names| && names[i] == n;
          assert names[1..][i - 1] == n;
        }
      }
      ReadLeaves(names[1..], values, numbers, parse, taken, acc');
      var k := Leaves(names, numbers)[0];
      assert k.name == name && parse(k.str) == Some(values[name]);
      assert Leaves(names, numbers)[1..] == Leaves(names[1..], numbers);
    }
  }

  /** `entries` is how the section of these values is found in a saved tree. */
  ghost predicate Holds(entries: seq<KV.Node>, values: map<Text, int>) {
    SortedNamesMeaning(values.Keys);
    entries == if values == map[] then [] else Leaves(SortedNames(values.Keys), values)
  }

  lemma ReadSaved<T>(entries: seq<KV.Node>, values: map<Text, T>, numbers: map<Text, int>,
                     parse: Text -> Option<T>, taken: set<Text>)
    requires Reads(parse, values, numbers) && SerializableNames(values.Keys) && values.Keys !! taken
    requires Holds(entries, numbers)
    ensures ReadSection(entries, parse, taken, map[]) == Some(values)
  {
    if numbers == map[] {
      assert values == map[];
    } else {
      SortedNamesMeaning(numbers.Keys);
      ReadLeaves(SortedNames(numbers.Keys), values, numbers, parse, taken, map[]);
    }
  }

  // ------------------------------------------------- the saved tree is clean

  lemma FormatIsClean(n: int)
    ensures RT.CleanText(FormatInt(n))
  {
  }

  lemma SerializableIsClean(name: Text)
    requires IsSerializableName(name)
    ensures RT.CleanText(name)
  {
  }

  lemma LeafIsClean(name: Text, n: int)
    requires IsSerializableName(name)
    ensures var k := KV.Node(name, [], FormatInt(n)); RT.Clean([k]) && RT.Pruned([k]) == [k]
  {
    var k := KV.Node(name, [], FormatInt(n));
    FormatIsClean(n);
    SerializableIsClean(name);
    assert RT.Clean([]);
    assert RT.PrunedKey(k) == [k] && [k][1..] == [];
  }

  lemma {:induction false} LeavesNames(names: seq<Text>, values: map<Text, int>)
    requires forall n <- names :: n in values
    ensures |Leaves(names, values)| == |names|
    ensures forall i :: 0 <= i < |names| ==> Leaves(names, values)[i].name == names[i]
  {
    if names != [] {
      LeavesNames(names[1..], values);
    }
  }

  lemma {:induction false} LeavesAreClean(names: seq<Text>, values: map<Text, int>)
    requires Sorted(names) && forall n <- names :: n in values && IsSerializableName(n)
    ensures RT.Clean(Leaves(names, values)) && RT.Pruned(Leaves(names, values)) == Leaves(names, values)
  {
    hide RT.Clean, RT.Pruned, IsSerializableName, FormatInt;
    if names == [] {
      NothingIsClean();
    } else {
      var k, others := KV.Node(names[0], [], FormatInt(values[names[0]])), Leaves(names[1..], values);
      LeavesAreClean(names[1..], values);
      LeavesNames(names[1..], values);
      LeafIsClean(names[0], values[names[0]]);
      forall x | x in others
        ensures x.name != k.name
      {
        var i :| 0 <= i < |others| && others[i] == x;
        assert names[i + 1] == x.name;
      }
      CleanJoin([k], others);
      PrunedJoin([k], others);
    }
  }

  lemma NothingIsClean()
    ensures RT.Clean([]) && RT.Pruned([]) == []
  {
  }

  lemma BranchIsClean(k: KV.Node)
    requires RT.CleanText(k.name) && k.str == [] && k.subkeys != []
    requires RT.Clean(k.subkeys) && RT.Pruned(k.subkeys) == k.subkeys
    ensures RT.Clean([k]) && RT.Pruned([k]) == [k]
  {
    assert RT.PrunedKey(k) == [k];
    assert [k][1..] == [];
  }

  lemma SectionIsClean(name: Text, values: map<Text, int>)
    requires SerializableNames(values.Keys) && RT.CleanText(name)
    ensures RT.Clean(Section(name, values)) && RT.Pruned(Section(name, values)) == Section(name, values)
    ensures forall k <- Section(name, values) :: k.name == name
  {
    assert RT.Clean([]);
    if values != map[] {
      var names := SortedNames(values.Keys);
      SortedNamesMeaning(values.Keys);
      LeavesAreClean(names, values);
      var n :| n in values;
      assert n in names;
      BranchIsClean(KV.Node(name, Leaves(names, values), []));
    }
  }

  lemma CleanJoin(a: seq<KV.Node>, b: seq<KV.Node>)
    requires RT.Clean(a) && RT.Clean(b) && forall x <- a, y <- b :: x.name != y.name
    ensures RT.Clean(a + b)
  {
  }

  lemma {:induction false} PrunedJoin(a: seq<KV.Node>, b: seq<KV.Node>)
    ensures RT.Pruned(a + b) == RT.Pruned(a) + RT.Pruned(b)
  {
    TailOfJoin(a, b);
    if a != [] {
      PrunedJoin(a[1..], b);
    }
  }

  lemma VersionIsClean()
    ensures var v := [KV.Node(VERSION, [], FormatInt(FILE_VERSION))]; RT.Clean(v) && RT.Pruned(v) == v
  {
    var k := KV.Node(VERSION, [], FormatInt(FILE_VERSION));
    FormatIsClean(FILE_VERSION);
    assert RT.Clean([]);
    assert RT.PrunedKey(k) == [k];
    assert [k][1..] == [];
  }

  lemma SectionNames()
    ensures |VERSION| == 7 && |FLOAT_STATS| == 11 && |ACHIEVEMENTS| == 12 && |INTEGER_STATS| == 13
    ensures RT.CleanText(FLOAT_STATS) && RT.CleanText(ACHIEVEMENTS) && RT.CleanText(INTEGER_STATS)
  {
  }

  lemma SavedTreeIsClean(s: State)
    requires Valid(s)
    ensures RT.Clean(SavedTree(s)) && RT.Pruned(SavedTree(s)) == SavedTree(s)
  {
    var version := [KV.Node(VERSION, [], FormatInt(FILE_VERSION))];
    var integers, floats := Section(INTEGER_STATS, s.integers), Section(FLOAT_STATS, s.floats);
    var unlocked := Section(ACHIEVEMENTS, s.achievements);
    SectionNames();
    hide Section, VERSION, INTEGER_STATS, FLOAT_STATS, ACHIEVEMENTS, RT.Clean, RT.Pruned, RT.CleanText;
    VersionIsClean();
    SectionIsClean(INTEGER_STATS, s.integers);
    SectionIsClean(FLOAT_STATS, s.floats);
    SectionIsClean(ACHIEVEMENTS, s.achievements);
    CleanJoin(version, integers);
    CleanJoin(version + integers, floats);
    CleanJoin(version + integers + floats, unlocked);
    PrunedJoin(version, integers);
    PrunedJoin(version + integers, floats);
    PrunedJoin(version + integers + floats, unlocked);
  }

  // ------------------------------------------------------------- the reload

  lemma {:induction false} FindInJoin(a: seq<KV.Node>, b: seq<KV.Node>, name: Text)
    requires forall k <- a :: k.name != name
    ensures KV.GetSubkey(a + b, name) == KV.GetSubkey(b, name)
  {
    hide KV.GetSubkey;
    TailOfJoin(a, b);
    if a != [] {
      assert a[0] in a && forall k <- a[1..] :: k in a;
      FindAfterFirst(a + b, name);
      FindInJoin(a[1..], b, name);
    }
  }

  lemma FindAfterFirst(ks: seq<KV.Node>, name: Text)
    requires ks != [] && ks[0].name != name
    ensures KV.GetSubkey(ks, name) == KV.GetSubkey(ks[1..], name)
  {
  }

  lemma {:induction false} FindOnlyBefore(a: seq<KV.Node>, b: seq<KV.Node>, name: Text)
    requires forall k <- b :: k.name != name
    ensures KV.GetSubkey(a + b, name) == KV.GetSubkey(a, name)
  {
    TailOfJoin(a, b);
    if a == [] {
      assert KV.IndexOf(b, name) == |b|;
    } else {
      FindOnlyBefore(a[1..], b, name);
    }
  }

  ghost predicate Named(ks: seq<KV.Node>, name: Text) {
    forall k <- ks :: k.name == name
  }

  lemma FindAmongThree(v: KV.Node, a: Text, x: seq<KV.Node>, b: Text, y: seq<KV.Node>, c: Text, z: seq<KV.Node>)
    requires Named(x, a) && Named(y, b) && Named(z, c)
    requires v.name != a && v.name != b && v.name != c && a != b && a != c && b != c
    ensures var tree := [v] + x + y + z;
      KV.GetSubkey(tree, a) == KV.GetSubkey(x, a) && KV.GetSubkey(tree, b) == KV.GetSubkey(y, b)
      && KV.GetSubkey(tree, c) == KV.GetSubkey(z, c)
  {
    FindInJoin([v], x, a);
    FindOnlyBefore([v] + x, y, a);
    FindOnlyBefore([v] + x + y, z, a);
    FindInJoin([v] + x, y, b);
    FindOnlyBefore([v] + x + y, z, b);
    FindInJoin([v] + x + y, z, c);
  }

  lemma SectionHolds(name: Text, values: map<Text, int>)
    ensures Named(Section(name, values), name) && Holds(KV.SubkeysIn(Section(name, values), name), values)
  {
  }

  lemma SectionsAreFound(s: State)
    ensures var tree := SavedTree(s);
      && Holds(KV.SubkeysIn(tree, INTEGER_STATS), s.integers)
      && Holds(KV.SubkeysIn(tree, FLOAT_STATS), s.floats)
      && Holds(KV.SubkeysIn(tree, ACHIEVEMENTS), s.achievements)
  {
    SectionNames();
    SectionHolds(INTEGER_STATS, s.integers);
    SectionHolds(FLOAT_STATS, s.floats);
    SectionHolds(ACHIEVEMENTS, s.achievements);
    FindAmongThree(KV.Node(VERSION, [], FormatInt(FILE_VERSION)), INTEGER_STATS, Section(INTEGER_STATS, s.integers),
                   FLOAT_STATS, Section(FLOAT_STATS, s.floats), ACHIEVEMENTS, Section(ACHIEVEMENTS, s.achievements));
  }

  lemma ReadSavedTree(s: State)
    requires Valid(s) && s.loaded
    ensures ReadTree(SavedTree(s)) == Some(s.(pending := {}))
  {
    var tree := SavedTree(s);
    assert KV.GetSubkey(tree, VERSION) == Some(KV.Node(VERSION, [], FormatInt(FILE_VERSION)));
    ParseFormatUint32(FILE_VERSION);
    SectionsAreFound(s);
    ReadSavedMaps(s, tree);
  }

  lemma ReadSavedMaps(s: State, tree: seq<KV.Node>)
    requires Valid(s)
    requires Holds(KV.SubkeysIn(tree, INTEGER_STATS), s.integers)
    requires Holds(KV.SubkeysIn(tree, FLOAT_STATS), s.floats)
    requires Holds(KV.SubkeysIn(tree, ACHIEVEMENTS), s.achievements)
    ensures ReadSection(KV.SubkeysIn(tree, INTEGER_STATS), ParseInt32, {}, map[]) == Some(s.integers)
    ensures ReadSection(KV.SubkeysIn(tree, FLOAT_STATS), ParseUint32, s.integers.Keys, map[]) == Some(s.floats)
    ensures ReadSection(KV.SubkeysIn(tree, ACHIEVEMENTS), ParseUint32, {}, map[]) == Some(s.achievements)
  {
    forall n | n in s.integers
      ensures ParseInt32(FormatInt(s.integers[n])) == Some(s.integers[n])
    {
      ParseFormatInt32(s.integers[n]);
    }
    forall n: uint32
      ensures ParseUint32(FormatInt(n)) == Some(n)
    {
      ParseFormatUint32(n);
    }
    ReadSaved(KV.SubkeysIn(tree, INTEGER_STATS), s.integers, s.integers, ParseInt32, {});
    ReadSaved(KV.SubkeysIn(tree, FLOAT_STATS), s.floats, s.floats, ParseUint32, s.integers.Keys);
    ReadSaved(KV.SubkeysIn(tree, ACHIEVEMENTS), s.achievements, s.achievements, ParseUint32, {});
  }

  /**
   Loading what a save wrote restores every stat and achievement exactly, into any
   store and from the text of the file.
   */
  lemma SaveThenLoad(s: State, other: State)
    requires Valid(s) && s.loaded
    ensures Step(other, Load(KV.Contents(SavedText(s)))) == s.(pending := {})
    ensures ReadFile(KV.Contents(SavedText(s))).0 == Success
  {
    SavedTreeIsClean(s);
    RT.PrintParseRoundTrip(SavedTree(s));
    RT.PrintedStart(SavedTree(s));
    ReadSavedTree(s);
  }

  // --------------------------------------------------------------- all runs

  function Run(s: State, ops: seq<Op>): State
    decreases ops
  {
    if ops == [] then s else Run(Step(s, ops[0]), ops[1..])
  }

  lemma {:induction false} ReadSectionIsSerializable<T>(entries: seq<KV.Node>, parse: Text -> Option<T>,
                                                        taken: set<Text>, acc: map<Text, T>)
    requires SerializableNames(acc.Keys) && acc.Keys !! taken
    requires ReadSection(entries, parse, taken, acc).Some?
    ensures var m := ReadSection(entries, parse, taken, acc).value; SerializableNames(m.Keys) && m.Keys !! taken
  {
    if entries != [] {
      var k := entries[0];
      ReadSectionIsSerializable(entries[1..], parse, taken, acc[k.name := parse(k.str).value]);
    }
  }

  lemma LoadedIsValid(file: KV.FileRead)
    requires ReadFile(file).1.Some?
    ensures Valid(ReadFile(file).1.value)
  {
    if file.Contents? {
      var ks := KV.ParseText(KV.WithoutBom(file.bytes)).value;
      var s := ReadTree(ks).value;
      ReadSectionIsSerializable(KV.SubkeysIn(ks, INTEGER_STATS), ParseInt32, {}, map[]);
      ReadSectionIsSerializable(KV.SubkeysIn(ks, FLOAT_STATS), ParseUint32, s.integers.Keys, map[]);
      ReadSectionIsSerializable(KV.SubkeysIn(ks, ACHIEVEMENTS), ParseUint32, {}, map[]);
    }
  }

  lemma StepKeepsValid(s: State, op: Op)
    requires Valid(s)
    ensures Valid(Step(s, op))
  {
    hide ReadFile;
    if op.Load? && Accepted(s, op) {
      LoadedIsValid(op.file);
    }
  }

  /** Names stay serializable, the two kinds of stat stay apart, and pending unlocks are unlocked. */
  lemma {:induction false} RunKeepsValid(s: State, ops: seq<Op>)
    requires Valid(s)
    ensures Valid(Run(s, ops))
    decreases ops
  {
    if ops != [] {
      StepKeepsValid(s, ops[0]);
      RunKeepsValid(Step(s, ops[0]), ops[1..]);
    }
  }

  /** After any run at all, a successful save can be loaded back unchanged. */
  lemma EveryReachableStateReloads(ops: seq<Op>, other: State)
    requires Run(State(false, map[], map[], map[], {}), ops).loaded
    ensures var s := Run(State(false, map[], map[], map[], {}), ops);
      Step(other, Load(KV.Contents(SavedText(s)))) == s.(pending := {})
  {
    var initial := State(false, map[], map[], map[], {});
    RunKeepsValid(initial, ops);
    SaveThenLoad(Run(initial, ops), other);
  }

  // ------------------------------------------- each unlock is reported once

  function Count(b: bool): nat {
    if b then 1 else 0
  }

  predicate Unlocks(s: State, op: Op, name: Text) {
    op.SetAchievement? && op.name == name && Accepted(s, op) && name !in s.achievements
  }

  /** Times the achievement goes from locked to unlocked in a run. */
  function UnlockCount(s: State, ops: seq<Op>, name: Text): nat
    decreases ops
  {
    if ops == [] then 0 else Count(Unlocks(s, ops[0], name)) + UnlockCount(Step(s, ops[0]), ops[1..], name)
  }

  /** Times a successful save reports it. */
  function ReportCount(s: State, ops: seq<Op>, name: Text): nat
    decreases ops
  {
    if ops == [] then 0 else Count(name in Reported(s, ops[0])) + ReportCount(Step(s, ops[0]), ops[1..], name)
  }

  /** Times it is cleared, reset or loaded over before it was reported. */
  function DropCount(s: State, ops: seq<Op>, name: Text): nat
    decreases ops
  {
    if ops == [] then 0
    else Count(!ops[0].Save? && name in s.pending && name !in Step(s, ops[0]).pending)
         + DropCount(Step(s, ops[0]), ops[1..], name)
  }

  /** The account of one operation. */
  lemma StepAccounts(s: State, op: Op, name: Text)
    requires Valid(s)
    ensures Count(name in s.pending) + Count(Unlocks(s, op, name))
         == Count(name in Reported(s, op)) + Count(!op.Save? && name in s.pending && name !in Step(s, op).pending)
            + Count(name in Step(s, op).pending)
  {
    if op.Load? && Accepted(s, op) {
      assert ReadFile(op.file).1.value.pending == {};
    }
  }

  /** Every unlock is reported by exactly one save, or still pending, or was taken back first. */
  lemma {:induction false} UnlocksAreReportedOnce(s: State, ops: seq<Op>, name: Text)
    requires Valid(s)
    ensures Count(name in s.pending) + UnlockCount(s, ops, name)
         == ReportCount(s, ops, name) + DropCount(s, ops, name) + Count(name in Run(s, ops).pending)
    decreases ops
  {
    if ops != [] {
      StepKeepsValid(s, ops[0]);
      UnlocksAreReportedOnce(Step(s, ops[0]), ops[1..], name);
      StepAccounts(s, ops[0], name);
    }
  }
}
