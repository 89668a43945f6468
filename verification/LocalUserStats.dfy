/** The local stats and achievements store and its file (local_user_stats.cpp). */
module LocalUserStats {
  import opened Prelude
  import opened Numbers
  import KV = KeyValues

  const MAX_NAME_LENGTH := 127
  const FILE_VERSION: uint32 := 1
  const VERSION := Bytes("version")
  const INTEGER_STATS := Bytes("integer_stats")
  const FLOAT_STATS := Bytes("float_stats")
  const ACHIEVEMENTS := Bytes("achievements")

  /** The fields of the store; a float stat is its 32-bit pattern. */
  datatype State = State(
    loaded: bool,
    integers: map<Text, int32>,
    floats: map<Text, uint32>,
    achievements: map<Text, uint32>,
    pending: set<Text>)

  datatype LoadResult = Success | NotFound | ReadError | InvalidFormat

  predicate IsSerializableName(name: Text) {
    0 < |name| <= MAX_NAME_LENGTH && forall b <- name :: b >= KV.SPACE && b != KV.QUOTE
  }

  predicate SerializableNames(names: set<Text>) {
    forall n <- names :: IsSerializableName(n)
  }

  /** What every operation keeps. */
  predicate Valid(s: State) {
    && SerializableNames(s.integers.Keys + s.floats.Keys + s.achievements.Keys)
    && s.integers.Keys !! s.floats.Keys
    && s.pending <= s.achievements.Keys
  }

  // --------------------------------------------------------------- the file

  /** One section of the file: a leaf per name. */
  function Leaves(names: seq<Text>, values: map<Text, int>): seq<KV.Node>
    requires forall n <- names :: n in values
  {
    if names == [] then []
    else [KV.Node(names[0], [], FormatInt(values[names[0]]))] + Leaves(names[1..], values)
  }

  ghost function Section(name: Text, values: map<Text, int>): seq<KV.Node> {
    if values == map[] then []
    else
      SortedNamesMeaning(values.Keys);
      [KV.Node(name, Leaves(SortedNames(values.Keys), values), [])]
  }

  ghost function SavedTree(s: State): seq<KV.Node> {
    [KV.Node(VERSION, [], FormatInt(FILE_VERSION))]
    + Section(INTEGER_STATS, s.integers) + Section(FLOAT_STATS, s.floats) + Section(ACHIEVEMENTS, s.achievements)
  }

  ghost function SavedText(s: State): Text {
    KV.PrintBody(SavedTree(s), 0)
  }

  /** Reads a section; None when an entry is malformed, repeated or taken by another section. */
  function ReadSection<T>(entries: seq<KV.Node>, parse: Text -> Option<T>, taken: set<Text>, acc: map<Text, T>)
    : Option<map<Text, T>>
  {
    if entries == [] then Some(acc)
    else
      var k := entries[0];
      if IsSerializableName(k.name) && parse(k.str).Some? && k.name !in taken && k.name !in acc then
        ReadSection(entries[1..], parse, taken, acc[k.name := parse(k.str).value])
      else None
  }

  /** The state a parsed file describes. */
  function ReadTree(ks: seq<KV.Node>): Option<State> {
    match KV.GetSubkey(ks, VERSION)
    case None => None
    case Some(version) =>
      if ParseUint32(version.str) != Some(FILE_VERSION) then None
      else match ReadSection(KV.SubkeysIn(ks, INTEGER_STATS), ParseInt32, {}, map[])
        case None => None
        case Some(integers) =>
          match ReadSection(KV.SubkeysIn(ks, FLOAT_STATS), ParseUint32, integers.Keys, map[])
          case None => None
          case Some(floats) =>
            match ReadSection(KV.SubkeysIn(ks, ACHIEVEMENTS), ParseUint32, {}, map[])
            case None => None
            case Some(achievements) => Some(State(true, integers, floats, achievements, {}))
  }

  function ReadFile(file: KV.FileRead): (r: (LoadResult, Option<State>))
    ensures r.1.Some? <==> r.0.Success? || r.0.NotFound?
  {
    match file
    case NotFound => (NotFound, Some(State(true, map[], map[], map[], {})))
    case ReadError => (ReadError, None)
    case Contents(bytes) =>
      var text := KV.WithoutBom(bytes);
      if text == [] then (InvalidFormat, None)
      else match KV.ParseText(text)
        case None => (InvalidFormat, None)
        case Some(ks) =>
          match ReadTree(ks)
          case None => (InvalidFormat, None)
          case Some(s) => (Success, Some(s))
  }

  // --------------------------------------------------------- the operations

  datatype Op =
    | Load(file: KV.FileRead)
    | SetInteger(name: Text, value: int32)
    | SetFloat(name: Text, bits: uint32)
    | SetAchievement(name: Text, unlockTime: uint32)
    | ClearAchievement(name: Text)
    | ResetAllStats(achievementsToo: bool)
    | Save(directoryOk: bool, writeOk: bool)

  predicate Accepted(s: State, op: Op) {
    match op
    case Load(file) => ReadFile(file).1.Some?
    case SetInteger(name, _) => s.loaded && IsSerializableName(name) && name !in s.floats
    case SetFloat(name, _) => s.loaded && IsSerializableName(name) && name !in s.integers
    case SetAchievement(name, _) => s.loaded && IsSerializableName(name)
    case ClearAchievement(name) => s.loaded && IsSerializableName(name)
    case ResetAllStats(_) => s.loaded
    case Save(directoryOk, writeOk) => s.loaded && directoryOk && writeOk
  }

  function Step(s: State, op: Op): State {
    if !Accepted(s, op) then s
    else match op
      case Load(file) => ReadFile(file).1.value
      case SetInteger(name, value) => s.(integers := s.integers[name := value])
      case SetFloat(name, bits) => s.(floats := s.floats[name := bits])
      case SetAchievement(name, time) =>
        if name in s.achievements then s
        else s.(achievements := s.achievements[name := time], pending := s.pending + {name})
      case ClearAchievement(name) =>
        s.(achievements := s.achievements - {name}, pending := s.pending - {name})
      case ResetAllStats(achievementsToo) =>
        if achievementsToo then State(true, map[], map[], map[], {})
        else s.(integers := map[], floats := map[])
      case Save(_, _) => s.(pending := {})
  }

  /** The achievements an operation reports as newly stored. */
  function Reported(s: State, op: Op): set<Text> {
    if op.Save? && Accepted(s, op) then s.pending else {}
  }

  // ---------------------------------------------------------------- reading

  /** GetStat for integers: None when it fails. */
  function IntegerRead(s: State, name: Text): Option<int32> {
    if !s.loaded || !IsSerializableName(name) || name in s.floats then None
    else if name in s.integers then Some(s.integers[name]) else Some(0)
  }

  function FloatRead(s: State, name: Text): Option<uint32> {
    if !s.loaded || !IsSerializableName(name) || name in s.integers then None
    else if name in s.floats then Some(s.floats[name]) else Some(0)
  }

  /** GetAchievement: the time it was unlocked, if it was. */
  function AchievementRead(s: State, name: Text): Option<Option<uint32>> {
    if !s.loaded || !IsSerializableName(name) then None
    else if name in s.achievements then Some(Some(s.achievements[name])) else Some(None)
  }

  method ReadSectionEntries<T(0)>(entries: seq<KV.Node>, parse: Text -> Option<T>, taken: set<Text>)
    returns (ok: bool, values: map<Text, T>)
    ensures ok <==> ReadSection(entries, parse, taken, map[]).Some?
    ensures ok ==> ReadSection(entries, parse, taken, map[]) == Some(values)
  {
    values := map[];
    for i := 0 to |entries|
      invariant ReadSection(entries, parse, taken, map[]) == ReadSection(entries[i..], parse, taken, values)
    {
      var entry := entries[i];
      assert entries[i..][1..] == entries[i + 1..];
      var parsed := parse(entry.str);
      if !IsSerializableName(entry.name) || parsed.None? || entry.name in taken {
        return false, values;
      }
      if entry.name in values {
        return false, values;
      }
      values := values[entry.name := parsed.value];
    }
    assert entries[|entries|..] == [];
    return true, values;
  }

  lemma {:induction false} LeavesAppend(names: seq<Text>, name: Text, values: map<Text, int>)
    requires name in values && forall n <- names :: n in values
    ensures Leaves(names + [name], values) == Leaves(names, values) + [KV.Node(name, [], FormatInt(values[name]))]
  {
    if names == [] {
      assert [name][1..] == [];
    } else {
      assert (names + [name])[1..] == names[1..] + [name];
      LeavesAppend(names[1..], name, values);
    }
  }

  /** Adds a section with one number per name, in name order, unless there are none. */
  method AddSection(tree: seq<KV.Node>, name: Text, values: map<Text, int>) returns (tree': seq<KV.Node>)
    ensures tree' == tree + Section(name, values)
  {
    if values == map[] {
      return tree;
    }
    var names := SortNames(values.Keys);
    SortedNamesMeaning(values.Keys);
    var leaves := AddLeaves(names, values);
    tree' := tree + [KV.Node(name, leaves, [])];
  }

  method AddLeaves(names: seq<Text>, values: map<Text, int>) returns (leaves: seq<KV.Node>)
    requires forall n <- names :: n in values
    ensures leaves == Leaves(names, values)
  {
    leaves := [];
    for i := 0 to |names|
      invariant leaves == Leaves(names[..i], values)
    {
      LeavesAppend(names[..i], names[i], values);
      assert names[..i + 1] == names[..i] + [names[i]];
      leaves := leaves + [KV.Node(names[i], [], FormatInt(values[names[i]]))];
    }
    assert names[..|names|] == names;
  }

  class Store {
    var loaded: bool
    var integerStats: map<Text, int32>
    var floatStats: map<Text, uint32>
    var achievements: map<Text, uint32>
    var pendingAchievements: set<Text>

    ghost function Current(): State
      reads this
    {
      State(loaded, integerStats, floatStats, achievements, pendingAchievements)
    }

    constructor ()
      ensures Current() == State(false, map[], map[], map[], {})
    {
      loaded := false;
      integerStats, floatStats, achievements, pendingAchievements := map[], map[], map[], {};
    }

    method Load(file: KV.FileRead) returns (result: LoadResult)
      modifies this
      ensures result == ReadFile(file).0
      ensures Current() == Step(old(Current()), Op.Load(file))
    {
      var root := new KV.KeyValue(Bytes("user_stats"));
      var fileResult := root.ParseFromFileDetailed(file);
      if fileResult == KV.FileNotFound {
        integerStats, floatStats, achievements, pendingAchievements := map[], map[], map[], {};
        loaded := true;
        return NotFound;
      }
      if fileResult == KV.ReadFailed {
        return ReadError;
      }
      if fileResult != KV.Success {
        return InvalidFormat;
      }
      result := LoadTree(root.root.subkeys);
    }

    method LoadTree(ks: seq<KV.Node>) returns (result: LoadResult)
      modifies this
      ensures result == if ReadTree(ks).Some? then Success else InvalidFormat
      ensures Current() == if ReadTree(ks).Some? then ReadTree(ks).value else old(Current())
    {
      var version := KV.GetSubkey(ks, VERSION);
      if version.None? || ParseUint32(version.value.str) != Some(FILE_VERSION) {
        return InvalidFormat;
      }
      var ok, integers := ReadSectionEntries(KV.SubkeysIn(ks, INTEGER_STATS), ParseInt32, {});
      if !ok {
        return InvalidFormat;
      }
      var floats;
      ok, floats := ReadSectionEntries(KV.SubkeysIn(ks, FLOAT_STATS), ParseUint32, integers.Keys);
      if !ok {
        return InvalidFormat;
      }
      var unlocked;
      ok, unlocked := ReadSectionEntries(KV.SubkeysIn(ks, ACHIEVEMENTS), ParseUint32, {});
      if !ok {
        return InvalidFormat;
      }
      integerStats, floatStats, achievements, pendingAchievements := integers, floats, unlocked, {};
      loaded := true;
      return Success;
    }

    method GetIntegerStat(name: Text) returns (ok: bool, value: int32)
      ensures ok <==> IntegerRead(Current(), name).Some?
      ensures ok ==> IntegerRead(Current(), name) == Some(value)
    {
      if !loaded || !IsSerializableName(name) || name in floatStats {
        return false, 0;
      }
      return true, if name in integerStats then integerStats[name] else 0;
    }

    method GetFloatStat(name: Text) returns (ok: bool, bits: uint32)
      ensures ok <==> FloatRead(Current(), name).Some?
      ensures ok ==> FloatRead(Current(), name) == Some(bits)
    {
      if !loaded || !IsSerializableName(name) || name in integerStats {
        return false, 0;
      }
      return true, if name in floatStats then floatStats[name] else 0;
    }

    method GetAchievement(name: Text) returns (ok: bool, achieved: bool, unlockTime: uint32)
      ensures ok <==> AchievementRead(Current(), name).Some?
      ensures ok ==> AchievementRead(Current(), name) == Some(if achieved then Some(unlockTime) else None)
    {
      if !loaded || !IsSerializableName(name) {
        return false, false, 0;
      }
      achieved := name in achievements;
      return true, achieved, if achieved then achievements[name] else 0;
    }

    method SetIntegerStat(name: Text, value: int32) returns (ok: bool)
      modifies this
      ensures ok <==> Accepted(old(Current()), SetInteger(name, value))
      ensures Current() == Step(old(Current()), SetInteger(name, value))
    {
      if !loaded || !IsSerializableName(name) || name in floatStats {
        return false;
      }
      integerStats := integerStats[name := value];
      return true;
    }

    method SetFloatStat(name: Text, bits: uint32) returns (ok: bool)
      modifies this
      ensures ok <==> Accepted(old(Current()), SetFloat(name, bits))
      ensures Current() == Step(old(Current()), SetFloat(name, bits))
    {
      if !loaded || !IsSerializableName(name) || name in integerStats {
        return false;
      }
      floatStats := floatStats[name := bits];
      return true;
    }

    method SetAchievement(name: Text, unlockTime: uint32) returns (ok: bool)
      modifies this
      ensures ok <==> Accepted(old(Current()), Op.SetAchievement(name, unlockTime))
      ensures Current() == Step(old(Current()), Op.SetAchievement(name, unlockTime))
    {
      if !loaded || !IsSerializableName(name) {
        return false;
      }
      if name !in achievements {
        achievements := achievements[name := unlockTime];
        pendingAchievements := pendingAchievements + {name};
      }
      return true;
    }

    method ClearAchievement(name: Text) returns (ok: bool)
      modifies this
      ensures ok <==> Accepted(old(Current()), Op.ClearAchievement(name))
      ensures Current() == Step(old(Current()), Op.ClearAchievement(name))
    {
      if !loaded || !IsSerializableName(name) {
        return false;
      }
      achievements := achievements - {name};
      pendingAchievements := pendingAchievements - {name};
      return true;
    }

    method ResetAllStats(achievementsToo: bool) returns (ok: bool)
      modifies this
      ensures ok <==> Accepted(old(Current()), Op.ResetAllStats(achievementsToo))
      ensures Current() == Step(old(Current()), Op.ResetAllStats(achievementsToo))
    {
      if !loaded {
        return false;
      }
      integerStats, floatStats := map[], map[];
      if achievementsToo {
        achievements, pendingAchievements := map[], {};
      }
      return true;
    }

    /** Save: the caller's list is replaced, and the file written, only on success. */
    method Save(stored: seq<Text>, directoryOk: bool, writeOk: bool)
      returns (ok: bool, stored': seq<Text>, written: Option<Text>)
      modifies this
      ensures ok <==> Accepted(old(Current()), Op.Save(directoryOk, writeOk))
      ensures Current() == Step(old(Current()), Op.Save(directoryOk, writeOk))
      ensures ok ==> stored' == SortedNames(Reported(old(Current()), Op.Save(directoryOk, writeOk)))
      ensures ok ==> written == Some(SavedText(old(Current())))
      ensures !ok ==> stored' == stored && written == None
    {
      if !loaded || !directoryOk {
        return false, stored, None;
      }
      var text := Print();
      if !writeOk {
        return false, stored, None;
      }
      stored' := SortNames(pendingAchievements);
      pendingAchievements := {};
      return true, stored', Some(text);
    }

    method Print() returns (text: Text)
      ensures text == SavedText(Current())
    {
      var tree := [KV.Node(VERSION, [], FormatInt(FILE_VERSION))];
      tree := AddSection(tree, INTEGER_STATS, integerStats);
      tree := AddSection(tree, FLOAT_STATS, floatStats);
      tree := AddSection(tree, ACHIEVEMENTS, achievements);
      assert tree == SavedTree(Current());
      var file := new KV.OutputFile();
      file.Write(KV.Node(Bytes("user_stats"), tree, []), 0);
      text := file.written;
      assert [] + SavedText(Current()) == SavedText(Current());
    }
  }
}
