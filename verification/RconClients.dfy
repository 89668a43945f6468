/**
 Remote commands and the client they run on: a client can go away only when no command
 runs on it any more (rcon_server.cpp, ActiveClientCommand and UnregisterClient).
 */
module RconClients {
  import opened Prelude

  type ThreadId = nat
  type ClientId = nat

  /** A thread inside UnregisterClient that waits for the commands to finish. */
  datatype Waiter = Waiter(client: ClientId, asleep: bool)

  /** `scopes` are the live command scopes with the client each obtained, if there was one. */
  datatype State = State(
    client: Option<ClientId>, active: int,
    scopes: map<ThreadId, Option<ClientId>>, waiters: map<ThreadId, Waiter>)

  datatype Step =
    | Register(client: ClientId)
    | Enter(thread: ThreadId)                             // a command scope opens
    | Leave(thread: ThreadId)                             // and closes
    | BeginUnregister(thread: ThreadId, client: ClientId) // up to the first look at the counter
    | Recheck(thread: ThreadId)                           // woken: looks at the counter again
    | SpuriousWake(thread: ThreadId)

  const Initial := State(None, 0, map[], map[])

  /** A client is registered only when none is. */
  predicate Enabled(s: State, step: Step) {
    match step
    case Register(_) => s.client == None
    case Enter(t) => t !in s.scopes
    case Leave(t) => t in s.scopes
    case BeginUnregister(t, _) => t !in s.waiters
    case Recheck(t) => t in s.waiters && !s.waiters[t].asleep
    case SpuriousWake(t) => t in s.waiters && s.waiters[t].asleep
  }

  function Awake(waiters: map<ThreadId, Waiter>): map<ThreadId, Waiter> {
    map t | t in waiters :: waiters[t].(asleep := false)
  }

  /** The wait's predicate: true returns, false sleeps. */
  function LookAtCounter(s: State, t: ThreadId, c: ClientId): State {
    if s.active == 0 then s.(waiters := s.waiters - {t}) else s.(waiters := s.waiters[t := Waiter(c, true)])
  }

  function Next(s: State, step: Step): State
    requires Enabled(s, step)
  {
    match step
    case Register(c) => s.(client := Some(c))
    case Enter(t) =>
      s.(scopes := s.scopes[t := s.client], active := if s.client.Some? then s.active + 1 else s.active)
    case Leave(t) =>
      if s.scopes[t].None? then s.(scopes := s.scopes - {t})
      else s.(scopes := s.scopes - {t}, active := s.active - 1, waiters := Awake(s.waiters))
    case BeginUnregister(t, c) =>
      if s.client != Some(c) then s else LookAtCounter(s.(client := None), t, c)
    case Recheck(t) => LookAtCounter(s, t, s.waiters[t].client)
    case SpuriousWake(t) => s.(waiters := s.waiters[t := s.waiters[t].(asleep := false)])
  }

  // --------------------------------------------------------------- invariant

  /** The scopes that hold a client. */
  function Holders(scopes: map<ThreadId, Option<ClientId>>): set<ThreadId> {
    set t | t in scopes && scopes[t].Some?
  }

  /** The counter counts the scopes that hold a client; nobody sleeps when there are none. */
  predicate Invariant(s: State) {
    && s.active == |Holders(s.scopes)|
    && (forall t <- s.waiters :: s.waiters[t].asleep ==> s.active > 0)
  }

  predicate Holds(s: State, c: ClientId) {
    exists t <- s.scopes :: s.scopes[t] == Some(c)
  }

  lemma EnterHolders(scopes: map<ThreadId, Option<ClientId>>, t: ThreadId, c: Option<ClientId>)
    requires t !in scopes
    ensures |Holders(scopes[t := c])| == |Holders(scopes)| + if c.Some? then 1 else 0
  {
    assert Holders(scopes[t := c]) == Holders(scopes) + if c.Some? then {t} else {};
  }

  lemma LeaveHolders(scopes: map<ThreadId, Option<ClientId>>, t: ThreadId)
    requires t in scopes
    ensures |Holders(scopes - {t})| == |Holders(scopes)| - if scopes[t].Some? then 1 else 0
  {
    assert Holders(scopes - {t}) == Holders(scopes) - {t};
  }

  lemma StepKeepsInvariant(s: State, step: Step)
    requires Invariant(s) && Enabled(s, step)
    ensures Invariant(Next(s, step))
  {
    hide Holders;
    match step
    case Enter(t) => EnterHolders(s.scopes, t, s.client);
    case Leave(t) => LeaveHolders(s.scopes, t);
    case _ =>
  }

  predicate IsRun(states: seq<State>, steps: seq<Step>) {
    && |states| == |steps| + 1
    && forall i :: 0 <= i < |steps| ==> Enabled(states[i], steps[i]) && states[i + 1] == Next(states[i], steps[i])
  }

  lemma {:induction false} RunKeepsInvariant(states: seq<State>, steps: seq<Step>, n: nat)
    requires IsRun(states, steps) && states[0] == Initial && n <= |steps|
    ensures Invariant(states[n])
  {
    if n > 0 {
      RunKeepsInvariant(states, steps, n - 1);
      StepKeepsInvariant(states[n - 1], steps[n - 1]);
    }
  }

  /** A counter of zero means that no command runs on any client. */
  lemma ZeroIsQuiet(s: State, c: ClientId)
    requires Invariant(s) && s.active == 0
    ensures !Holds(s, c)
  {
    assert Holders(s.scopes) == {};
    forall t | t in s.scopes
      ensures s.scopes[t] == None
    {
      assert t !in Holders(s.scopes);
    }
  }

  // -------------------------------------------------------------- quiescence

  /**
   A call of UnregisterClient(c): step i begins it, step j is where it returns.  It returns
   at once when c is not the registered client.
   */
  predicate Unregisters(states: seq<State>, steps: seq<Step>, i: nat, j: nat, t: ThreadId, c: ClientId)
    requires IsRun(states, steps) && i <= j < |steps|
  {
    && steps[i] == BeginUnregister(t, c)
    && (forall k :: i < k <= j ==> t in states[k].waiters && states[k].waiters[t].client == c)
    && (j > i ==> steps[j] == Recheck(t))
    && t !in states[j + 1].waiters
  }

  predicate NotRegistered(steps: seq<Step>, i: nat, n: nat, c: ClientId)
    requires n <= |steps|
  {
    forall k :: i <= k < n ==> steps[k] != Register(c)
  }

  lemma {:induction false} GoneUntilRegistered(states: seq<State>, steps: seq<Step>, i: nat, n: nat, t: ThreadId, c: ClientId)
    requires IsRun(states, steps) && i < n <= |steps| && steps[i] == BeginUnregister(t, c)
    requires NotRegistered(steps, i, n, c)
    ensures states[n].client != Some(c)
  {
    var s, step := states[n - 1], steps[n - 1];
    if n - 1 > i {
      GoneUntilRegistered(states, steps, i, n - 1, t, c);
    }
    assert states[n] == Next(s, step);
  }

  /** Some thread is inside UnregisterClient(c). */
  predicate BeingUnregistered(s: State, c: ClientId) {
    exists w <- s.waiters :: s.waiters[w].client == c
  }

  /** A client that commands hold is registered, or a thread waits for it to become free. */
  predicate Accounted(s: State) {
    forall t <- s.scopes :: s.scopes[t].Some? ==> s.client == s.scopes[t] || BeingUnregistered(s, s.scopes[t].value)
  }

  lemma StepKeepsAccounted(s: State, step: Step)
    requires Invariant(s) && Accounted(s) && Enabled(s, step)
    ensures Accounted(Next(s, step))
  {
    var s' := Next(s, step);
    forall t | t in s'.scopes && s'.scopes[t].Some?
      ensures s'.client == s'.scopes[t] || BeingUnregistered(s', s'.scopes[t].value)
    {
      var c := s'.scopes[t].value;
      if s'.active == 0 {
        StepKeepsInvariant(s, step);
        ZeroIsQuiet(s', c);
      } else if t in s.scopes && BeingUnregistered(s, c) {
        var w :| w in s.waiters && s.waiters[w].client == c;
        assert w in s'.waiters && s'.waiters[w].client == c;
      } else if step.BeginUnregister? && s.client == Some(c) {
        assert s'.client == Some(c) || (step.thread in s'.waiters && s'.waiters[step.thread].client == c);
      }
    }
  }

  lemma {:induction false} RunKeepsAccounted(states: seq<State>, steps: seq<Step>, n: nat)
    requires IsRun(states, steps) && states[0] == Initial && n <= |steps|
    ensures Accounted(states[n])
  {
    if n > 0 {
      RunKeepsAccounted(states, steps, n - 1);
      RunKeepsInvariant(states, steps, n - 1);
      StepKeepsAccounted(states[n - 1], steps[n - 1]);
    }
  }

  /** The call is not made while another call on the same client is still waiting. */
  predicate MayUnregister(s: State, c: ClientId) {
    s.client == Some(c) || !BeingUnregistered(s, c)
  }

  /**
   After a call of UnregisterClient(c) has returned, no command scope holds c or obtains it,
   in any interleaving, until c is registered again: if c was registered when the call was
   made, or no other call on c was waiting.
   */
  lemma {:induction false} UnregisteredIsQuiet(states: seq<State>, steps: seq<Step>, i: nat, j: nat, n: nat, t: ThreadId, c: ClientId)
    requires IsRun(states, steps) && states[0] == Initial && i <= j < n <= |steps|
    requires Unregisters(states, steps, i, j, t, c) && NotRegistered(steps, i, n, c) && MayUnregister(states[i], c)
    ensures states[n].client != Some(c) && !Holds(states[n], c)
  {
    GoneUntilRegistered(states, steps, i, n, t, c);
    var s, step := states[n - 1], steps[n - 1];
    assert states[n] == Next(s, step);
    if n - 1 == j {
      ReturnIsQuiet(states, steps, i, j, t, c);
    } else {
      UnregisteredIsQuiet(states, steps, i, j, n - 1, t, c);
      QuietStays(s, step, c);
    }
  }

  lemma ReturnIsQuiet(states: seq<State>, steps: seq<Step>, i: nat, j: nat, t: ThreadId, c: ClientId)
    requires IsRun(states, steps) && states[0] == Initial && i <= j < |steps|
    requires Unregisters(states, steps, i, j, t, c) && MayUnregister(states[i], c)
    ensures !Holds(states[j + 1], c)
  {
    if j == i && states[i].client != Some(c) {
      RunKeepsAccounted(states, steps, i);
      assert states[j + 1] == states[i];
    } else {
      RunKeepsInvariant(states, steps, j + 1);
      ReturnsAtZero(states[j], steps[j], t, c);
      ZeroIsQuiet(states[j + 1], c);
    }
  }

  lemma ReturnsAtZero(s: State, step: Step, t: ThreadId, c: ClientId)
    requires Enabled(s, step) && t !in Next(s, step).waiters
    requires step == Recheck(t) || (step == BeginUnregister(t, c) && s.client == Some(c))
    ensures Next(s, step).active == 0
  {
  }

  lemma QuietStays(s: State, step: Step, c: ClientId)
    requires Enabled(s, step) && s.client != Some(c) && !Holds(s, c)
    ensures !Holds(Next(s, step), c)
  {
    var s' := Next(s, step);
    forall t | t in s'.scopes
      ensures s'.scopes[t] != Some(c)
    {
      if t in s.scopes {
        assert s.scopes[t] != Some(c);
      }
    }
  }

  /** A waiting thread is never forgotten: when the last command ends it is awake or already gone. */
  lemma NoWaiterIsForgotten(states: seq<State>, steps: seq<Step>, n: nat, t: ThreadId)
    requires IsRun(states, steps) && states[0] == Initial && n <= |steps|
    requires t in states[n].waiters && states[n].active == 0
    ensures Enabled(states[n], Recheck(t)) && t !in Next(states[n], Recheck(t)).waiters
  {
    RunKeepsInvariant(states, steps, n);
  }

  // ------------------------------------------------ two calls on one client

  /** Two threads unregister client c while thread w runs a command on it. */
  function TwoCalls(c: ClientId, w: ThreadId, t: ThreadId, u: ThreadId): seq<Step> {
    [Register(c), Enter(w), BeginUnregister(t, c), BeginUnregister(u, c)]
  }

  function StatesOfTwoCalls(c: ClientId, w: ThreadId, t: ThreadId): seq<State> {
    [Initial,
     State(Some(c), 0, map[], map[]),
     State(Some(c), 1, map[w := Some(c)], map[]),
     State(None, 1, map[w := Some(c)], map[t := Waiter(c, true)]),
     State(None, 1, map[w := Some(c)], map[t := Waiter(c, true)])]
  }

  /** The failing family: the second call returns at once although the client is still in use. */
  lemma SecondCallReturnsEarly(c: ClientId, w: ThreadId, t: ThreadId, u: ThreadId)
    requires t != u
    ensures var states, steps := StatesOfTwoCalls(c, w, t), TwoCalls(c, w, t, u);
      && IsRun(states, steps) && states[0] == Initial
      && Unregisters(states, steps, 3, 3, u, c) && !MayUnregister(states[3], c)
      && Holds(states[4], c)
  {
    var states, steps := StatesOfTwoCalls(c, w, t), TwoCalls(c, w, t, u);
    forall i | 0 <= i < |steps|
      ensures Enabled(states[i], steps[i]) && states[i + 1] == Next(states[i], steps[i])
    {
      if i == 1 {
        assert Next(states[1], steps[1]) == states[2];
      } else if i == 2 {
        assert Next(states[2], steps[2]).waiters == map[t := Waiter(c, true)];
      }
    }
    assert t in states[3].waiters && states[3].waiters[t].client == c;
    assert w in states[4].scopes && states[4].scopes[w] == Some(c);
  }

  /** No other client was ever registered. */
  predicate OnlyClient(steps: seq<Step>, c: ClientId) {
    forall step <- steps :: step.Register? ==> step.client == c
  }

  lemma {:induction false} OnlyClientIsHeld(states: seq<State>, steps: seq<Step>, n: nat, c: ClientId)
    requires IsRun(states, steps) && states[0] == Initial && n <= |steps| && OnlyClient(steps, c)
    ensures states[n].client == None || states[n].client == Some(c)
    ensures forall t <- states[n].scopes :: states[n].scopes[t] == None || states[n].scopes[t] == Some(c)
  {
    if n > 0 {
      OnlyClientIsHeld(states, steps, n - 1, c);
      assert states[n] == Next(states[n - 1], steps[n - 1]) && steps[n - 1] in steps;
    }
  }

  /**
   With one client in the process, exactly which calls keep the promise: those that find
   the client registered or the counter at zero.
   */
  lemma QuietExactlyWhen(states: seq<State>, steps: seq<Step>, i: nat, j: nat, t: ThreadId, c: ClientId)
    requires IsRun(states, steps) && states[0] == Initial && i <= j < |steps| && OnlyClient(steps, c)
    requires Unregisters(states, steps, i, j, t, c)
    ensures !Holds(states[j + 1], c) <==> states[i].client == Some(c) || states[i].active == 0
  {
    RunKeepsInvariant(states, steps, i);
    if states[i].client == Some(c) {
      ReturnIsQuiet(states, steps, i, j, t, c);
    } else {
      ImmediateReturn(states, steps, i, j, t, c);
      if states[i].active == 0 {
        ZeroIsQuiet(states[i], c);
      } else {
        OnlyClientIsHeld(states, steps, i, c);
        var w := SomeHolder(states[i]);
        assert states[i].scopes[w] == Some(c);
      }
    }
  }

  lemma SomeHolder(s: State) returns (w: ThreadId)
    requires Invariant(s) && s.active != 0
    ensures w in s.scopes && s.scopes[w].Some?
  {
    assert Holders(s.scopes) != {};
    w :| w in Holders(s.scopes);
  }

  /** A call on a client that is not registered changes nothing and is over at once. */
  lemma ImmediateReturn(states: seq<State>, steps: seq<Step>, i: nat, j: nat, t: ThreadId, c: ClientId)
    requires IsRun(states, steps) && i <= j < |steps| && Unregisters(states, steps, i, j, t, c)
    requires states[i].client != Some(c)
    ensures j == i && states[i + 1] == states[i]
  {
    assert Enabled(states[i], steps[i]) && states[i + 1] == Next(states[i], steps[i]);
  }

  // ----------------------------------------------------------------- the class

  /** The fields of RconServer that the mutex guards, with the threads in its scopes. */
  class RconServer {
    var client: Option<ClientId>
    var activeClientCommands: int
    var scopes: map<ThreadId, Option<ClientId>>
    var waiters: map<ThreadId, Waiter>

    constructor ()
      ensures Now() == Initial
    {
      client, activeClientCommands, scopes, waiters := None, 0, map[], map[];
    }

    ghost function Now(): State
      reads this
    {
      State(client, activeClientCommands, scopes, waiters)
    }

    method RegisterClient(c: ClientId)
      requires client == None
      modifies `client
      ensures Now() == Next(old(Now()), Register(c))
    {
      client := Some(c);
    }

    /** The constructor of ActiveClientCommand. */
    method OpenCommand(t: ThreadId) returns (held: Option<ClientId>)
      requires t !in scopes
      modifies `activeClientCommands, `scopes
      ensures Now() == Next(old(Now()), Enter(t)) && held == client
    {
      held := client;
      if held.Some? {
        activeClientCommands := activeClientCommands + 1;
      }
      scopes := scopes[t := held];
    }

    /** Its destructor. */
    method CloseCommand(t: ThreadId)
      requires t in scopes
      modifies `activeClientCommands, `scopes, `waiters
      ensures Now() == Next(old(Now()), Leave(t))
    {
      var held := scopes[t];
      scopes := scopes - {t};
      if held.None? {
        return;
      }
      activeClientCommands := activeClientCommands - 1;
      waiters := Awake(waiters);
    }

    /** Returns whether the call is over; if not, the thread waits. */
    method UnregisterClient(t: ThreadId, c: ClientId) returns (over: bool)
      requires t !in waiters
      modifies `client, `waiters
      ensures Now() == Next(old(Now()), BeginUnregister(t, c)) && (over <==> t !in waiters)
    {
      if client != Some(c) {
        return true;
      }
      client := None;
      over := WaitUntilIdle(t, c);
    }

    method WaitUntilIdle(t: ThreadId, c: ClientId) returns (over: bool)
      modifies `waiters
      ensures Now() == LookAtCounter(old(Now()), t, c) && (over <==> t !in waiters)
    {
      over := activeClientCommands == 0;
      waiters := if over then waiters - {t} else waiters[t := Waiter(c, true)];
    }

    /** A woken thread looks again. */
    method ResumeUnregister(t: ThreadId) returns (over: bool)
      requires t in waiters && !waiters[t].asleep
      modifies `waiters
      ensures Now() == Next(old(Now()), Recheck(t)) && (over <==> t !in waiters)
    {
      over := WaitUntilIdle(t, waiters[t].client);
    }
  }
}
