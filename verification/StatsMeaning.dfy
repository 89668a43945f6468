/**
 What the stats store reads back, told from the calls that were made and accepted and from
 nothing else (local_user_stats.cpp, the getters and setters).
 */
module StatsMeaning {
  import opened Prelude
  import opened LocalUserStats
  import opened StatsReload
  import KV = KeyValues

  /** A call and whether it was accepted. */
  datatype Call = Call(op: Op, accepted: bool)

  // ------------------------------------------- what the calls say should be read

  /** Some load has been accepted. */
  predicate LoadedBy(calls: seq<Call>) {
    exists c <- calls :: c.op.Load? && c.accepted
  }

  /** What a file holds for a load. */
  function Held(file: KV.FileRead): State
    requires ReadFile(file).1.Some?
  {
    ReadFile(file).1.value
  }

  function Find<T>(values: map<Text, T>, name: Text): Option<T> {
    if name in values then Some(values[name]) else None
  }

  /** The last value set since the last load or reset, or what that load held. */
  function LastInteger(calls: seq<Call>, name: Text): Option<int32>
    decreases |calls|
  {
    if calls == [] then None
    else
      var before, last := LastInteger(calls[..|calls| - 1], name), calls[|calls| - 1];
      if !last.accepted then before
      else match last.op
        case SetInteger(n, value) => if n == name then Some(value) else before
        case ResetAllStats(_) => None
        case Load(file) => if ReadFile(file).1.Some? then Find(Held(file).integers, name) else before
        case _ => before
  }

  function LastFloat(calls: seq<Call>, name: Text): Option<uint32>
    decreases |calls|
  {
    if calls == [] then None
    else
      var before, last := LastFloat(calls[..|calls| - 1], name), calls[|calls| - 1];
      if !last.accepted then before
      else match last.op
        case SetFloat(n, bits) => if n == name then Some(bits) else before
        case ResetAllStats(_) => None
        case Load(file) => if ReadFile(file).1.Some? then Find(Held(file).floats, name) else before
        case _ => before
  }

  /** The time of the first unlock since the last clear, full reset or load, or what that load held. */
  function FirstUnlock(calls: seq<Call>, name: Text): Option<uint32>
    decreases |calls|
  {
    if calls == [] then None
    else
      var before, last := FirstUnlock(calls[..|calls| - 1], name), calls[|calls| - 1];
      if !last.accepted then before
      else match last.op
        case SetAchievement(n, time) => if n == name && before.None? then Some(time) else before
        case ClearAchievement(n) => if n == name then None else before
        case ResetAllStats(achievementsToo) => if achievementsToo then None else before
        case Load(file) => if ReadFile(file).1.Some? then Find(Held(file).achievements, name) else before
        case _ => before
  }

  /** Which calls are to be accepted. */
  predicate Acceptable(calls: seq<Call>, op: Op) {
    match op
    case Load(file) => ReadFile(file).1.Some?
    case SetInteger(name, _) => LoadedBy(calls) && IsSerializableName(name) && LastFloat(calls, name).None?
    case SetFloat(name, _) => LoadedBy(calls) && IsSerializableName(name) && LastInteger(calls, name).None?
    case SetAchievement(name, _) => LoadedBy(calls) && IsSerializableName(name)
    case ClearAchievement(name) => LoadedBy(calls) && IsSerializableName(name)
    case ResetAllStats(_) => LoadedBy(calls)
    case Save(directoryOk, writeOk) => LoadedBy(calls) && directoryOk && writeOk
  }

  // ------------------------------------------------------------ every run

  const Fresh := State(false, map[], map[], map[], {})

  /** The calls of a run from a fresh store, with their results. */
  function CallsOf(ops: seq<Op>): seq<Call>
    decreases |ops|
  {
    if ops == [] then []
    else
      var n := |ops| - 1;
      CallsOf(ops[..n]) + [Call(ops[n], Accepted(Run(Fresh, ops[..n]), ops[n]))]
  }

  lemma {:induction false} RunNext(s: State, ops: seq<Op>, op: Op)
    ensures Run(s, ops + [op]) == Step(Run(s, ops), op)
    decreases ops
  {
    hide Step;
    TailOfJoin(ops, [op]);
    if ops == [] {
      assert [op][1..] == [];
    } else {
      RunNext(Step(s, ops[0]), ops[1..], op);
    }
  }

  /** The store holds what the calls say. */
  ghost predicate Tells(s: State, calls: seq<Call>) {
    && (s.loaded <==> LoadedBy(calls))
    && forall name :: TellsOf(s, calls, name)
  }

  predicate TellsOf(s: State, calls: seq<Call>, name: Text) {
    && Find(s.integers, name) == LastInteger(calls, name)
    && Find(s.floats, name) == LastFloat(calls, name)
    && Find(s.achievements, name) == FirstUnlock(calls, name)
  }

  lemma NextCall(calls: seq<Call>, c: Call)
    ensures (calls + [c])[..|calls|] == calls
    ensures LoadedBy(calls + [c]) <==> LoadedBy(calls) || (c.op.Load? && c.accepted)
  {
    assert c in calls + [c] && forall x <- calls :: x in calls + [c];
  }

  lemma StepTells(s: State, calls: seq<Call>, op: Op)
    requires Tells(s, calls)
    ensures Accepted(s, op) <==> Acceptable(calls, op)
    ensures Tells(Step(s, op), calls + [Call(op, Accepted(s, op))])
  {
    hide ReadFile, LastInteger, LastFloat, FirstUnlock, IsSerializableName;
    var more := calls + [Call(op, Accepted(s, op))];
    NextCall(calls, Call(op, Accepted(s, op)));
    if op.SetInteger? || op.SetFloat? {
      assert TellsOf(s, calls, op.name);
    }
    if op.Load? && Accepted(s, op) {
      HeldIsLoaded(op.file);
    }
    forall name
      ensures TellsOf(Step(s, op), more, name)
    {
      assert TellsOf(s, calls, name);
      NextName(s, calls, op, name);
    }
  }

  lemma HeldIsLoaded(file: KV.FileRead)
    requires ReadFile(file).1.Some?
    ensures Held(file).loaded
  {
  }

  lemma NextName(s: State, calls: seq<Call>, op: Op, name: Text)
    requires TellsOf(s, calls, name)
    ensures TellsOf(Step(s, op), calls + [Call(op, Accepted(s, op))], name)
  {
    hide ReadFile, IsSerializableName;
    NextCall(calls, Call(op, Accepted(s, op)));
  }

  lemma {:induction false} RunTells(ops: seq<Op>)
    ensures Tells(Run(Fresh, ops), CallsOf(ops))
    decreases |ops|
  {
    if ops != [] {
      hide Step, Accepted, Tells;
      var n := |ops| - 1;
      assert ops == ops[..n] + [ops[n]];
      RunTells(ops[..n]);
      RunNext(Fresh, ops[..n], ops[n]);
      StepTells(Run(Fresh, ops[..n]), CallsOf(ops[..n]), ops[n]);
    } else {
      FreshTells();
    }
  }

  lemma FreshTells()
    ensures Tells(Fresh, []) && Run(Fresh, []) == Fresh && CallsOf([]) == []
  {
  }

  /** Over every run, exactly the acceptable calls are accepted. */
  lemma AcceptedWhenAcceptable(ops: seq<Op>, op: Op)
    ensures Accepted(Run(Fresh, ops), op) <==> Acceptable(CallsOf(ops), op)
  {
    RunTells(ops);
    StepTells(Run(Fresh, ops), CallsOf(ops), op);
  }

  /**
   Over every run: a stat reads as the last value that was set for it, 0 if there is none,
   and not at all under a name of the other kind; an achievement reads as unlocked at the
   time of its first unlock.
   */
  lemma ReadsWhatWasSet(ops: seq<Op>, name: Text)
    ensures var s, calls := Run(Fresh, ops), CallsOf(ops);
      var readable := LoadedBy(calls) && IsSerializableName(name);
      && IntegerRead(s, name) == (if !readable || LastFloat(calls, name).Some? then None
           else if LastInteger(calls, name).Some? then LastInteger(calls, name) else Some(0))
      && FloatRead(s, name) == (if !readable || LastInteger(calls, name).Some? then None
           else if LastFloat(calls, name).Some? then LastFloat(calls, name) else Some(0))
      && AchievementRead(s, name) == if !readable then None else Some(FirstUnlock(calls, name))
  {
    hide LoadedBy, LastInteger, LastFloat, FirstUnlock, IsSerializableName;
    RunTells(ops);
    assert TellsOf(Run(Fresh, ops), CallsOf(ops), name);
  }

  /** In particular an accepted value is what is read next, and no other name reads differently. */
  lemma SetThenRead(ops: seq<Op>, name: Text, value: int32, other: Text)
    requires Acceptable(CallsOf(ops), SetInteger(name, value))
    ensures var s := Run(Fresh, ops);
      var after := Run(Fresh, ops + [SetInteger(name, value)]);
      && IntegerRead(after, name) == Some(value)
      && (other != name ==>
            && IntegerRead(after, other) == IntegerRead(s, other) && FloatRead(after, other) == FloatRead(s, other)
            && AchievementRead(after, other) == AchievementRead(s, other))
  {
    AcceptedWhenAcceptable(ops, SetInteger(name, value));
    RunNext(Fresh, ops, SetInteger(name, value));
  }
}
