/**
 The connect handshake of the game server with its clients: sent on connect, retried on
 a doubling delay until the client answers with its cache (networking_server.cpp).
 */
module Handshake {
  import opened Prelude

  const MAX_ATTEMPTS := 6
  const BASE_DELAY := 2
  const MAX_DELAY := 30

  function Min(a: int, b: int): int {
    if a < b then a else b
  }

  function Pow2(n: nat): nat {
    if n == 0 then 1 else 2 * Pow2(n - 1)
  }

  /** Seconds until the next connect message, when `attempts` have been sent. */
  method ConnectRetryDelay(attempts: uint32) returns (delay: nat)
    ensures delay == RetryDelay(attempts)
  {
    delay := BASE_DELAY;
    var i := 1;
    while i < attempts && delay < MAX_DELAY
      invariant 1 <= i && (attempts >= 1 ==> i <= attempts) && (attempts == 0 ==> i == 1)
      invariant delay == Pow2(i)
    {
      delay := delay * 2;
      i := i + 1;
    }
    if attempts >= 1 && i < attempts {
      Pow2Grows(i, attempts);
    }
    delay := Min(delay, MAX_DELAY);
  }

  lemma {:induction false} Pow2Grows(a: nat, b: nat)
    requires a <= b
    ensures Pow2(a) <= Pow2(b)
  {
    if a < b {
      Pow2Grows(a, b - 1);
    }
  }

  /** The delay doubles up to half a minute; nothing sent yet counts as one. */
  function RetryDelay(attempts: nat): nat {
    Min(Pow2(if attempts == 0 then 1 else attempts), MAX_DELAY)
  }

  // ---------------------------------------------------------------- one peer

  datatype Session = Session(ticket: Text, attempts: nat, nextConnect: int, acknowledged: bool)

  /** A connect message: when it was sent, and the ticket in it. */
  datatype Send = Send(time: int, ticket: Text)

  datatype Peer = Peer(session: Option<Session>, sends: seq<Send>)

  datatype Event =
    | Connected(peer: uint64, ticket: Text, now: int)
    | Disconnected(peer: uint64)
    | Incoming(peer: uint64, isCache: bool)
    | SessionRequest(peer: uint64, now: int)
    | SessionFailed(peer: uint64, now: int)
    | Update(now: int)

  /** SendConnectMessage. */
  function ConnectSent(peer: Peer, session: Session, now: int): Peer {
    Peer(Some(session.(attempts := session.attempts + 1, nextConnect := now + RetryDelay(session.attempts + 1))),
         peer.sends + [Send(now, session.ticket)])
  }

  /** After the n-th message the next is due in 2^n seconds, or in half a minute if that is sooner. */
  lemma SentAgainIn(peer: Peer, session: Session, now: int)
    ensures var next := ConnectSent(peer, session, now).session.value;
      next.nextConnect - now == Min(Pow2(next.attempts), MAX_DELAY)
  {
  }

  predicate Waiting(session: Session) {
    !session.acknowledged && session.attempts < MAX_ATTEMPTS
  }

  predicate Due(session: Session, now: int) {
    Waiting(session) && now >= session.nextConnect
  }

  predicate Concerns(e: Event, p: uint64) {
    e.Update? || e.peer == p
  }

  /** What an event makes of the peer it concerns. */
  function PeerNext(peer: Peer, e: Event): Peer {
    match e
    case Connected(_, ticket, now) =>
      var session := if peer.session.None? then Session(ticket, 0, 0, false)
        else peer.session.value.(ticket := ticket, acknowledged := false, attempts := 0);
      ConnectSent(peer, session, now)
    case Disconnected(_) => peer.(session := None)
    case Incoming(_, isCache) =>
      if peer.session.None? || !isCache then peer
      else peer.(session := Some(peer.session.value.(acknowledged := true)))
    case SessionRequest(_, now) =>
      if peer.session.None? || !Waiting(peer.session.value) then peer
      else ConnectSent(peer, peer.session.value, now)
    case SessionFailed(_, now) =>
      if peer.session.None? then peer
      else
        var session := peer.session.value;
        peer.(session := Some(session.(attempts := if session.acknowledged then 0 else session.attempts,
                                       acknowledged := false, nextConnect := now)))
    case Update(now) =>
      if peer.session.None? || !Due(peer.session.value, now) then peer
      else ConnectSent(peer, peer.session.value, now)
  }

  /** Events that buy the peer a new budget: a connect, or the loss of an acknowledged session. */
  predicate Rearms(peer: Peer, e: Event) {
    e.Connected? || (e.SessionFailed? && peer.session.Some? && peer.session.value.acknowledged)
  }

  /** The part of the budget a session has not used. */
  function Unused(peer: Peer): nat {
    if peer.session.None? || peer.session.value.attempts >= MAX_ATTEMPTS then 0
    else MAX_ATTEMPTS - peer.session.value.attempts
  }

  /** Sends and what may still be sent are paid for by the events that rearmed the peer. */
  predicate WithinBudget(peer: Peer, rearms: nat) {
    && (peer.session.Some? ==> peer.session.value.attempts <= MAX_ATTEMPTS)
    && |peer.sends| + Unused(peer) <= MAX_ATTEMPTS * rearms
  }

  lemma EventKeepsBudget(peer: Peer, e: Event, rearms: nat)
    requires WithinBudget(peer, rearms)
    ensures WithinBudget(PeerNext(peer, e), rearms + if Rearms(peer, e) then 1 else 0)
  {
  }

  /** While the client's cache is there, only a new connect sends anything. */
  lemma NoRetryOnceAcknowledged(peer: Peer, e: Event)
    requires peer.session.Some? && (peer.session.value.acknowledged || peer.session.value.attempts >= MAX_ATTEMPTS)
    ensures PeerNext(peer, e).sends != peer.sends ==> e.Connected?
  {
  }

  // ----------------------------------------------------------- the time it takes

  /** The delays before the n-th message and all before it, added up. */
  function Waited(n: nat): nat {
    if n <= 1 then 0 else Waited(n - 1) + RetryDelay(n - 1)
  }

  lemma SixthAfterAMinute()
    ensures Waited(6) == 60
  {
    assert Pow2(5) == 32;
  }

  /** What holds of a peer that has only been retried by the timer since it connected at `start`. */
  predicate TimerOnly(peer: Peer, start: int, before: nat) {
    && peer.session.Some?
    && var session := peer.session.value;
       && 1 <= session.attempts && |peer.sends| == before + session.attempts
       && session.nextConnect >= start + Waited(session.attempts + 1)
       && forall k :: 1 <= k <= session.attempts ==> peer.sends[before + k - 1].time >= start + Waited(k)
  }

  lemma ConnectStartsTimer(peer: Peer, e: Event)
    requires e.Connected?
    ensures TimerOnly(PeerNext(peer, e), e.now, |peer.sends|)
  {
  }

  lemma UpdateKeepsTimer(peer: Peer, e: Event, start: int, before: nat)
    requires TimerOnly(peer, start, before) && (e.Update? || e.Incoming?)
    ensures TimerOnly(PeerNext(peer, e), start, before)
  {
    var next, n := PeerNext(peer, e), peer.session.value.attempts;
    if next.sends != peer.sends {
      forall k | 1 <= k <= n + 1
        ensures next.sends[before + k - 1].time >= start + Waited(k)
      {
        if k <= n {
          assert next.sends[before + k - 1] == peer.sends[before + k - 1];
        }
      }
    }
  }

  /**
   What holds of a silent peer that connected at `start` and was looked at every `gap`
   seconds, the last time at `clock`.
   */
  predicate OnTime(peer: Peer, start: int, before: nat, gap: nat, clock: int) {
    && peer.session.Some?
    && var session := peer.session.value;
       && 1 <= session.attempts <= MAX_ATTEMPTS && |peer.sends| == before + session.attempts && !session.acknowledged
       && session.nextConnect <= start + Waited(session.attempts + 1) + Slack(session.attempts, gap)
       && (session.attempts < MAX_ATTEMPTS ==> clock < session.nextConnect)
       && forall k :: 1 <= k <= session.attempts ==> peer.sends[before + k - 1].time <= start + Waited(k) + Slack(k, gap)
  }

  /** How much the gaps between the updates can have delayed the n-th message. */
  function Slack(n: nat, gap: nat): nat {
    if n <= 1 then 0 else Slack(n - 1, gap) + gap
  }

  lemma ConnectIsOnTime(peer: Peer, e: Event, gap: nat)
    requires e.Connected?
    ensures OnTime(PeerNext(peer, e), e.now, |peer.sends|, gap, e.now)
  {
  }

  lemma UpdateIsOnTime(peer: Peer, e: Event, start: int, before: nat, gap: nat, clock: int)
    requires OnTime(peer, start, before, gap, clock) && e.Update? && e.now <= clock + gap
    ensures OnTime(PeerNext(peer, e), start, before, gap, e.now)
  {
    hide Slack, Waited;
    var next, n := PeerNext(peer, e), peer.session.value.attempts;
    TimesNext(n, gap);
    if next.sends != peer.sends {
      forall k | 1 <= k <= n + 1
        ensures next.sends[before + k - 1].time <= start + Waited(k) + Slack(k, gap)
      {
        if k <= n {
          assert next.sends[before + k - 1] == peer.sends[before + k - 1];
        }
      }
    }
  }

  lemma TimesNext(n: nat, gap: nat)
    requires n >= 1
    ensures Slack(n + 1, gap) == Slack(n, gap) + gap && Waited(n + 2) == Waited(n + 1) + RetryDelay(n + 1)
    ensures RetryDelay(n + 1) > 0
  {
    Pow2Grows(1, n + 1);
  }

  lemma {:induction false} TimesGrow(n: nat, gap: nat)
    requires 1 <= n < MAX_ATTEMPTS
    ensures Waited(n + 1) + Slack(n, gap) <= 60 + 4 * gap
    decreases MAX_ATTEMPTS - n
  {
    if n + 1 < MAX_ATTEMPTS {
      TimesGrow(n + 1, gap);
      TimesNext(n, gap);
    } else {
      SixthAfterAMinute();
      assert Slack(2, gap) == gap && Slack(3, gap) == 2 * gap;
    }
  }

  // ------------------------------------------------------------------ all peers

  datatype State = State(clients: map<uint64, Session>, log: map<uint64, seq<Send>>)

  function SendsTo(log: map<uint64, seq<Send>>, p: uint64): seq<Send> {
    if p in log then log[p] else []
  }

  function View(s: State, p: uint64): Peer {
    Peer(if p in s.clients then Some(s.clients[p]) else None, SendsTo(s.log, p))
  }

  function Put(s: State, p: uint64, peer: Peer): State {
    State(if peer.session.Some? then s.clients[p := peer.session.value] else s.clients - {p},
          s.log[p := peer.sends])
  }

  /** Every peer with a session takes its turn. */
  function Updated(s: State, now: int, peers: set<uint64>): State {
    State(map p | p in s.clients ::
            if p in peers && Due(s.clients[p], now) then ConnectSent(View(s, p), s.clients[p], now).session.value else s.clients[p],
          map p | p in s.log.Keys + s.clients.Keys ::
            if p in peers && p in s.clients && Due(s.clients[p], now)
              then SendsTo(s.log, p) + [Send(now, s.clients[p].ticket)] else SendsTo(s.log, p))
  }

  function Next(s: State, e: Event): State {
    if e.Update? then Updated(s, e.now, s.clients.Keys) else Put(s, e.peer, PeerNext(View(s, e.peer), e))
  }

  /** An event touches the peers it concerns and no other. */
  lemma ViewNext(s: State, e: Event, p: uint64)
    ensures View(Next(s, e), p) == if Concerns(e, p) then PeerNext(View(s, p), e) else View(s, p)
  {
  }

  /** Every peer's session and messages are the same. */
  ghost predicate SameViews(s: State, t: State) {
    forall p: uint64 :: View(s, p) == View(t, p)
  }

  ghost predicate IsRun(states: seq<State>, events: seq<Event>) {
    && |states| == |events| + 1
    && forall i :: 0 <= i < |events| ==> SameViews(states[i + 1], Next(states[i], events[i]))
  }

  /** How often the peer was given a new budget in the first n events. */
  ghost function RearmCount(states: seq<State>, events: seq<Event>, n: nat, p: uint64): nat
    requires IsRun(states, events) && n <= |events|
  {
    if n == 0 then 0
    else
      RearmCount(states, events, n - 1, p)
      + if Concerns(events[n - 1], p) && Rearms(View(states[n - 1], p), events[n - 1]) then 1 else 0
  }

  /**
   In every run, the connect messages sent to a peer number at most six for each connect
   and each loss of an acknowledged session, and attempts never exceed six.
   */
  lemma {:induction false} SendsAreBounded(states: seq<State>, events: seq<Event>, n: nat, p: uint64)
    requires IsRun(states, events) && states[0] == State(map[], map[]) && n <= |events|
    ensures WithinBudget(View(states[n], p), RearmCount(states, events, n, p))
    ensures |SendsTo(states[n].log, p)| <= MAX_ATTEMPTS * RearmCount(states, events, n, p)
  {
    hide SameViews, View, Rearms, WithinBudget, SendsTo, Next;
    if n == 0 {
      FreshIsWithinBudget(p);
    } else {
      SendsAreBounded(states, events, n - 1, p);
      StepKeepsBudget(states[n - 1], states[n], events[n - 1], p, RearmCount(states, events, n - 1, p));
    }
    BudgetMeaning(states[n], p, RearmCount(states, events, n, p));
  }

  lemma FreshIsWithinBudget(p: uint64)
    ensures WithinBudget(View(State(map[], map[]), p), 0)
  {
  }

  lemma StepKeepsBudget(s: State, t: State, e: Event, p: uint64, rearms: nat)
    requires SameViews(t, Next(s, e)) && WithinBudget(View(s, p), rearms)
    ensures WithinBudget(View(t, p), rearms + if Concerns(e, p) && Rearms(View(s, p), e) then 1 else 0)
  {
    hide Next, View, PeerNext, Rearms, WithinBudget;
    ViewNext(s, e, p);
    EventKeepsBudget(View(s, p), e, rearms);
  }

  lemma BudgetMeaning(s: State, p: uint64, rearms: nat)
    requires WithinBudget(View(s, p), rearms)
    ensures |SendsTo(s.log, p)| <= MAX_ATTEMPTS * rearms
  {
  }

  /** Since event i, a connect of the peer, nothing but the timer and messages has concerned it. */
  predicate OnlyTimer(events: seq<Event>, i: nat, n: nat, p: uint64)
    requires i < n <= |events|
  {
    && events[i].Connected? && events[i].peer == p
    && forall k :: i < k < n && Concerns(events[k], p) ==> events[k].Update? || events[k].Incoming?
  }

  lemma {:induction false} TimerRun(states: seq<State>, events: seq<Event>, i: nat, n: nat, p: uint64)
    requires IsRun(states, events) && i < n <= |events| && OnlyTimer(events, i, n, p)
    ensures TimerOnly(View(states[n], p), events[i].now, |SendsTo(states[i].log, p)|)
  {
    hide Next, PeerNext, TimerOnly;
    assert SameViews(states[n], Next(states[n - 1], events[n - 1]));
    ViewNext(states[n - 1], events[n - 1], p);
    if n - 1 == i {
      ConnectStartsTimer(View(states[i], p), events[i]);
    } else {
      TimerRun(states, events, i, n - 1, p);
      if Concerns(events[n - 1], p) {
        UpdateKeepsTimer(View(states[n - 1], p), events[n - 1], events[i].now, |SendsTo(states[i].log, p)|);
      }
    }
  }

  /** Left to the timer, giving up takes at least a minute from the connect to the sixth message. */
  lemma TimerSpansAMinute(states: seq<State>, events: seq<Event>, i: nat, n: nat, p: uint64)
    requires IsRun(states, events) && i < n <= |events| && OnlyTimer(events, i, n, p)
    requires p in states[n].clients && states[n].clients[p].attempts >= MAX_ATTEMPTS
    ensures var sends, before := SendsTo(states[n].log, p), |SendsTo(states[i].log, p)|;
      |sends| >= before + MAX_ATTEMPTS && sends[before + MAX_ATTEMPTS - 1].time >= events[i].now + 60
  {
    TimerRun(states, events, i, n, p);
    SixthAfterAMinute();
  }

  /** Since event i nothing that concerned the peer was an answer, a loss or a request. */
  predicate Silent(events: seq<Event>, i: nat, n: nat, p: uint64)
    requires i < n <= |events|
  {
    forall k :: i < k < n && Concerns(events[k], p) ==> events[k].Update? || (events[k].Incoming? && !events[k].isCache)
  }

  /** When the sessions were last updated since event i, a connect or an update itself. */
  function Clock(events: seq<Event>, i: nat, n: nat): int
    requires i < n <= |events| && (events[i].Connected? || events[i].Update?)
  {
    if n == i + 1 then events[i].now
    else if events[n - 1].Update? then events[n - 1].now
    else Clock(events, i, n - 1)
  }

  /** No update comes more than `gap` seconds after the one before. */
  predicate UpdatedEvery(events: seq<Event>, i: nat, n: nat, gap: nat)
    requires i < n <= |events| && (events[i].Connected? || events[i].Update?)
  {
    forall k :: i < k < n && events[k].Update? ==> events[k].now <= Clock(events, i, k) + gap
  }

  lemma {:induction false} SilentRun(states: seq<State>, events: seq<Event>, i: nat, n: nat, p: uint64, gap: nat, before: nat)
    requires IsRun(states, events) && i < n <= |events| && (events[i].Connected? || events[i].Update?)
    requires Silent(events, i, n, p) && UpdatedEvery(events, i, n, gap)
    requires OnTime(View(states[i + 1], p), events[i].now, before, gap, events[i].now)
    ensures OnTime(View(states[n], p), events[i].now, before, gap, Clock(events, i, n))
  {
    hide Next, PeerNext, OnTime;
    if n - 1 > i {
      assert SameViews(states[n], Next(states[n - 1], events[n - 1]));
      ViewNext(states[n - 1], events[n - 1], p);
      SilentRun(states, events, i, n - 1, p, gap, before);
      if events[n - 1].Update? {
        UpdateIsOnTime(View(states[n - 1], p), events[n - 1], events[i].now, before, gap, Clock(events, i, n - 1));
      } else if Concerns(events[n - 1], p) {
        OtherMessage(View(states[n - 1], p), events[n - 1]);
      }
    }
  }

  lemma OtherMessage(peer: Peer, e: Event)
    requires e.Incoming? && !e.isCache
    ensures PeerNext(peer, e) == peer
  {
  }

  lemma OnTimeMeaning(peer: Peer, start: int, before: nat, gap: nat, clock: int)
    requires OnTime(peer, start, before, gap, clock)
    ensures before < |peer.sends| <= before + MAX_ATTEMPTS && SentOnTime(peer.sends, before, start, gap)
    ensures clock >= start + 60 + 4 * gap ==> |peer.sends| == before + MAX_ATTEMPTS
  {
    hide Waited, Slack;
    if peer.session.value.attempts < MAX_ATTEMPTS {
      TimesGrow(peer.session.value.attempts, gap);
    }
    forall k | 1 <= k <= |peer.sends| - before
      ensures peer.sends[before + k - 1].time <= start + Waited(k) + Slack(k, gap)
    {
    }
  }

  /** Each message since the connect has gone out by its time. */
  predicate SentOnTime(sends: seq<Send>, before: nat, start: int, gap: nat)
    requires before <= |sends|
  {
    forall k :: 1 <= k <= |sends| - before ==> sends[before + k - 1].time <= start + Waited(k) + Slack(k, gap)
  }

  /** What has been sent since event i, when there were `before` messages. */
  predicate TriedSixTimes(sends: seq<Send>, before: nat, start: int, clock: int, gap: nat) {
    && before < |sends| <= before + 6
    && SentOnTime(sends, before, start, gap)
    && (clock >= start + 60 + 4 * gap ==> |sends| == before + 6)
  }

  /**
   A silent peer is tried six times: with updates no more than `gap` seconds apart, all six
   messages have gone out, each by its time, once an update comes 60 + 4 gap seconds after
   the connect.
   */
  lemma SilentPeerIsTriedSixTimes(states: seq<State>, events: seq<Event>, i: nat, n: nat, p: uint64, gap: nat)
    requires IsRun(states, events) && i < n <= |events| && events[i].Connected? && events[i].peer == p
    requires Silent(events, i, n, p) && UpdatedEvery(events, i, n, gap)
    ensures TriedSixTimes(SendsTo(states[n].log, p), |SendsTo(states[i].log, p)|, events[i].now, Clock(events, i, n), gap)
  {
    hide OnTime, SentOnTime, UpdatedEvery, Next, PeerNext;
    var before := |SendsTo(states[i].log, p)|;
    assert SameViews(states[i + 1], Next(states[i], events[i]));
    ViewNext(states[i], events[i], p);
    ConnectIsOnTime(View(states[i], p), events[i], gap);
    SilentRun(states, events, i, n, p, gap, before);
    OnTimeMeaning(View(states[n], p), events[i].now, before, gap, Clock(events, i, n));
  }

  /** Waiting for the first update after the loss of an acknowledged session. */
  predicate JustLost(peer: Peer, start: int, before: nat) {
    && peer.session.Some? && |peer.sends| == before
    && !peer.session.value.acknowledged && peer.session.value.attempts == 0 && peer.session.value.nextConnect == start
  }

  lemma LostStaysLost(states: seq<State>, events: seq<Event>, i: nat, j: nat, p: uint64)
    requires IsRun(states, events) && i < j <= |events| && events[i].SessionFailed? && events[i].peer == p
    requires p in states[i].clients && states[i].clients[p].acknowledged
    requires Silent(events, i, j, p) && forall k :: i < k < j ==> !events[k].Update?
    ensures JustLost(View(states[j], p), events[i].now, |SendsTo(states[i].log, p)|)
  {
    hide Next;
    assert SameViews(states[j], Next(states[j - 1], events[j - 1]));
    ViewNext(states[j - 1], events[j - 1], p);
    if j - 1 > i {
      LostStaysLost(states, events, i, j - 1, p);
    }
  }

  lemma FirstTry(peer: Peer, now: int, start: int, before: nat, gap: nat)
    requires JustLost(peer, start, before) && now >= start
    ensures OnTime(PeerNext(peer, Update(now)), now, before, gap, now)
  {
  }

  /**
   So is a peer whose acknowledged session is lost: from the first update after the loss
   on, as if it had connected then.
   */
  lemma LostPeerIsTriedSixTimes(states: seq<State>, events: seq<Event>, i: nat, j: nat, n: nat, p: uint64, gap: nat)
    requires IsRun(states, events) && i < j < n <= |events| && events[i].SessionFailed? && events[i].peer == p
    requires p in states[i].clients && states[i].clients[p].acknowledged
    requires Silent(events, i, n, p) && (forall k :: i < k < j ==> !events[k].Update?)
    requires events[j].Update? && events[j].now >= events[i].now && UpdatedEvery(events, j, n, gap)
    ensures TriedSixTimes(SendsTo(states[n].log, p), |SendsTo(states[i].log, p)|, events[j].now, Clock(events, j, n), gap)
  {
    hide OnTime, SentOnTime, UpdatedEvery, Next, PeerNext, JustLost;
    var before := |SendsTo(states[i].log, p)|;
    LostStaysLost(states, events, i, j, p);
    assert SameViews(states[j + 1], Next(states[j], events[j]));
    ViewNext(states[j], events[j], p);
    FirstTry(View(states[j], p), events[j].now, events[i].now, before, gap);
    SilentRun(states, events, j, n, p, gap, before);
    OnTimeMeaning(View(states[n], p), events[j].now, before, gap, Clock(events, j, n));
  }

  /** Since event i, a connect of the peer, it has not answered, been lost, connected or gone. */
  predicate Unanswered(events: seq<Event>, i: nat, n: nat, p: uint64)
    requires i < n <= |events|
  {
    && events[i].Connected? && events[i].peer == p
    && forall k :: i < k < n && Concerns(events[k], p) ==>
         events[k].Update? || events[k].SessionRequest? || (events[k].Incoming? && !events[k].isCache)
  }

  lemma {:induction false} AttemptsAreMessages(states: seq<State>, events: seq<Event>, i: nat, n: nat, p: uint64)
    requires IsRun(states, events) && i < n <= |events| && Unanswered(events, i, n, p)
    ensures var peer := View(states[n], p);
      && peer.session.Some? && !peer.session.value.acknowledged
      && |peer.sends| == |SendsTo(states[i].log, p)| + peer.session.value.attempts
  {
    hide Next;
    assert SameViews(states[n], Next(states[n - 1], events[n - 1]));
    ViewNext(states[n - 1], events[n - 1], p);
    if n - 1 > i {
      AttemptsAreMessages(states, events, i, n - 1, p);
    }
  }

  /** An unanswered peer that asks for a session is sent one of its six messages at once. */
  lemma RequestIsAnsweredAtOnce(states: seq<State>, events: seq<Event>, i: nat, n: nat, p: uint64)
    requires IsRun(states, events) && i < n < |events| && Unanswered(events, i, n, p)
    requires events[n].SessionRequest? && events[n].peer == p
    ensures var sends, before := SendsTo(states[n].log, p), |SendsTo(states[i].log, p)|;
      var after := SendsTo(states[n + 1].log, p);
      if |sends| - before < 6 then |after| == |sends| + 1 && after[..|sends|] == sends && after[|sends|].time == events[n].now
      else after == sends
  {
    hide Next;
    AttemptsAreMessages(states, events, i, n, p);
    assert SameViews(states[n + 1], Next(states[n], events[n]));
    ViewNext(states[n], events[n], p);
  }

  /** Once the cache of a peer has come it is left alone until it connects anew or its session is lost. */
  lemma {:induction false} QuietAfterCache(states: seq<State>, events: seq<Event>, i: nat, n: nat, p: uint64)
    requires IsRun(states, events) && i < n <= |events| && events[i] == Incoming(p, true)
    requires forall k :: i < k < n && Concerns(events[k], p) ==> !events[k].Connected? && !events[k].SessionFailed?
    ensures var peer := View(states[n], p);
      && peer.sends == SendsTo(states[i].log, p)
      && (peer.session.Some? ==> peer.session.value.acknowledged)
  {
    hide Next;
    assert SameViews(states[n], Next(states[n - 1], events[n - 1]));
    ViewNext(states[n - 1], events[n - 1], p);
    if n - 1 > i {
      QuietAfterCache(states, events, i, n - 1, p);
    }
  }

  /** The ticket the peer connected with last, if it has not disconnected since. */
  function Announced(events: seq<Event>, n: nat, p: uint64): Option<Text>
    requires n <= |events|
  {
    if n == 0 then None
    else
      match events[n - 1]
      case Connected(q, ticket, _) => if q == p then Some(ticket) else Announced(events, n - 1, p)
      case Disconnected(q) => if q == p then None else Announced(events, n - 1, p)
      case _ => Announced(events, n - 1, p)
  }

  /** The sessions are the connected peers, each with the ticket it came with last. */
  ghost predicate HoldsTicket(peer: Peer, ticket: Option<Text>) {
    if ticket.None? then peer.session.None? else peer.session.Some? && peer.session.value.ticket == ticket.value
  }

  lemma {:induction false} SessionsAreConnected(states: seq<State>, events: seq<Event>, n: nat, p: uint64)
    requires IsRun(states, events) && states[0] == State(map[], map[]) && n <= |events|
    ensures HoldsTicket(View(states[n], p), Announced(events, n, p))
  {
    hide Next;
    if n > 0 {
      SessionsAreConnected(states, events, n - 1, p);
      assert SameViews(states[n], Next(states[n - 1], events[n - 1]));
      ViewNext(states[n - 1], events[n - 1], p);
    }
  }

  /**
   In every run, a step sends a peer one message or none, only while it is connected, and
   the message carries the ticket the peer connected with last.
   */
  lemma MessagesAreCurrent(states: seq<State>, events: seq<Event>, n: nat, p: uint64)
    requires IsRun(states, events) && states[0] == State(map[], map[]) && n < |events|
    ensures OneMoreAtMost(SendsTo(states[n].log, p), SendsTo(states[n + 1].log, p), Announced(events, n + 1, p))
  {
    hide Next, PeerNext;
    SessionsAreConnected(states, events, n, p);
    assert SameViews(states[n + 1], Next(states[n], events[n]));
    ViewNext(states[n], events[n], p);
    StepSends(View(states[n], p), events[n], Announced(events, n, p));
  }

  predicate OneMoreAtMost(now: seq<Send>, next: seq<Send>, ticket: Option<Text>) {
    || next == now
    || (ticket.Some? && |next| == |now| + 1 && next[..|now|] == now && next[|now|].ticket == ticket.value)
  }

  lemma StepSends(peer: Peer, e: Event, ticket: Option<Text>)
    requires HoldsTicket(peer, ticket)
    ensures OneMoreAtMost(peer.sends, PeerNext(peer, e).sends,
      match e
      case Connected(_, now, _) => Some(now)
      case Disconnected(_) => None
      case _ => ticket)
  {
  }

  // ------------------------------------------------------------------- the class

  class NetworkingServer {
    var clients: map<uint64, Session>
    ghost var log: map<uint64, seq<Send>>

    constructor ()
      ensures Now() == State(map[], map[])
    {
      clients, log := map[], map[];
    }

    ghost function Now(): State
      reads this
    {
      State(clients, log)
    }

    /** Sends the ticket and schedules the next attempt, whatever the socket says. */
    method SendConnectMessage(p: uint64, now: int)
      requires p in clients && clients[p].attempts < 0xffff_ffff
      modifies `clients, `log
      ensures Now() == Put(old(Now()), p, ConnectSent(View(old(Now()), p), old(clients)[p], now))
    {
      var session := clients[p];
      log := log[p := SendsTo(log, p) + [Send(now, session.ticket)]];
      session := session.(attempts := session.attempts + 1);
      var delay := ConnectRetryDelay(session.attempts);
      clients := clients[p := session.(nextConnect := now + delay)];
    }

    method UpdateSessions(now: int)
      requires forall p <- clients :: clients[p].attempts <= MAX_ATTEMPTS
      modifies `clients, `log
      ensures SameViews(Now(), Next(old(Now()), Update(now)))
    {
      hide PeerNext, Updated, Put, View;
      ghost var before := Now();
      var todo := clients.Keys;
      NoneUpdated(before, now);
      while todo != {}
        invariant todo <= clients.Keys == before.clients.Keys
        invariant forall p <- todo :: clients[p].attempts <= MAX_ATTEMPTS
        invariant PartlyUpdated(before, now, before.clients.Keys - todo, Now())
      {
        var p: uint64 :| p in todo;
        ghost var s := Now();
        OneUpdated(before, now, before.clients.Keys - todo, s, p);
        assert before.clients.Keys - (todo - {p}) == before.clients.Keys - todo + {p};
        todo := todo - {p};
        var session := clients[p];
        if session.acknowledged || session.attempts >= MAX_ATTEMPTS || now < session.nextConnect {
          continue;
        }
        SendConnectMessage(p, now);
      }
      AllUpdated(before, now, Now());
    }

    method ClientConnected(p: uint64, ticket: Text, now: int)
      modifies `clients, `log
      ensures SameViews(Now(), Next(old(Now()), Connected(p, ticket, now)))
    {
      if p !in clients {
        clients := clients[p := Session(ticket, 0, 0, false)];
      } else {
        clients := clients[p := clients[p].(ticket := ticket, acknowledged := false, attempts := 0)];
      }
      SendConnectMessage(p, now);
    }

    method ClientDisconnected(p: uint64)
      modifies `clients
      ensures SameViews(Now(), Next(old(Now()), Disconnected(p)))
    {
      clients := clients - {p};
    }

    method HandleIncomingMessage(p: uint64, isCache: bool)
      modifies `clients
      ensures SameViews(Now(), Next(old(Now()), Incoming(p, isCache)))
    {
      if p !in clients || clients[p].acknowledged {
        return;
      }
      if isCache {
        clients := clients[p := clients[p].(acknowledged := true)];
      }
    }

    method HandleSessionRequest(p: uint64, now: int)
      modifies `clients, `log
      ensures SameViews(Now(), Next(old(Now()), SessionRequest(p, now)))
    {
      if p !in clients || clients[p].acknowledged || clients[p].attempts >= MAX_ATTEMPTS {
        return;
      }
      SendConnectMessage(p, now);
    }

    method HandleSessionFailed(p: uint64, now: int)
      modifies `clients
      ensures SameViews(Now(), Next(old(Now()), SessionFailed(p, now)))
    {
      if p !in clients {
        return;
      }
      var session := clients[p];
      if session.acknowledged {
        session := session.(attempts := 0);
      }
      clients := clients[p := session.(acknowledged := false, nextConnect := now)];
    }
  }

  /** The state in the middle of an update, when some peers have had their turn. */
  ghost predicate PartlyUpdated(before: State, now: int, done: set<uint64>, s: State) {
    forall p: uint64 :: View(s, p) == if p in done then PeerNext(View(before, p), Update(now)) else View(before, p)
  }

  lemma NoneUpdated(before: State, now: int)
    ensures PartlyUpdated(before, now, before.clients.Keys - before.clients.Keys, before)
  {
  }

  lemma OneUpdated(before: State, now: int, done: set<uint64>, s: State, p: uint64)
    requires PartlyUpdated(before, now, done, s) && p !in done && p in s.clients
    ensures s.clients.Keys == Put(s, p, ConnectSent(View(s, p), s.clients[p], now)).clients.Keys
    ensures forall q <- s.clients :: q != p ==> Put(s, p, ConnectSent(View(s, p), s.clients[p], now)).clients[q] == s.clients[q]
    ensures if Due(s.clients[p], now) then PartlyUpdated(before, now, done + {p}, Put(s, p, ConnectSent(View(s, p), s.clients[p], now)))
      else PartlyUpdated(before, now, done + {p}, s)
  {
    assert View(s, p) == View(before, p);
    var t := Put(s, p, ConnectSent(View(s, p), s.clients[p], now));
    forall q: uint64
      ensures View(t, q) == if q == p then ConnectSent(View(s, p), s.clients[p], now) else View(s, q)
    {
    }
  }

  lemma AllUpdated(before: State, now: int, s: State)
    requires PartlyUpdated(before, now, before.clients.Keys - {}, s)
    ensures SameViews(s, Next(before, Update(now)))
  {
    hide PeerNext;
    forall p: uint64
      ensures View(s, p) == View(Next(before, Update(now)), p)
    {
      ViewNext(before, Update(now), p);
      if p !in before.clients {
        NoSessionNoUpdate(before, now, p);
      }
    }
  }

  lemma NoSessionNoUpdate(before: State, now: int, p: uint64)
    requires p !in before.clients
    ensures PeerNext(View(before, p), Update(now)) == View(before, p)
  {
  }
}
