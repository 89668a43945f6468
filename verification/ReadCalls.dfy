/**
 Asynchronous reads of the saved shuffle file: results are captured when the read is
 asked for and kept in a bounded first-in first-out cache until they are fetched
 (saved_item_shuffles.cpp).
 */
module ReadCalls {
  import opened Prelude

  const MAX_CALLS := 16
  const MAX_BYTES := 100 * 1024 * 1024
  const WORD := 0x1_0000_0000
  const PREFIX: uint64 := 0x4353_4752_0000_0000

  datatype Result = Ok | Fail | InvalidParam | FileNotFound

  /** The file as it is when a read is asked for. */
  datatype Disk = Missing | Unreadable | Contents(bytes: seq<byte>)

  datatype ReadCall = ReadCall(result: Result, offset: uint32, requestedSize: uint32, data: seq<byte>)

  function Min(a: int, b: int): int {
    if a < b then a else b
  }

  function Slice(bytes: seq<byte>, offset: nat, size: nat): seq<byte> {
    if offset >= |bytes| then [] else bytes[offset..Min(offset + size, |bytes|)]
  }

  /** What MakeReadCall captures. */
  function Captured(disk: Disk, offset: uint32, size: uint32): (r: ReadCall)
    ensures |r.data| <= size && |r.data| <= MAX_BYTES
  {
    if size > MAX_BYTES then ReadCall(InvalidParam, offset, size, [])
    else match disk
      case Missing => ReadCall(FileNotFound, offset, size, [])
      case Unreadable => ReadCall(Fail, offset, size, [])
      case Contents(bytes) => ReadCall(Ok, offset, size, Slice(bytes, offset, size))
  }

  predicate IsReadCall(call: uint64) {
    call / WORD == PREFIX / WORD
  }

  /** The n-th call, counting from zero; the counter starts at one and wraps. */
  function CallId(n: nat): uint64 {
    PREFIX + (n + 1) % WORD
  }

  /** Which of the first 2^32 calls an id belongs to. */
  function CallIndex(call: uint64): nat {
    (call % WORD - 1) % WORD
  }

  lemma IdsAreIndexed(n: nat)
    requires n < WORD
    ensures CallIndex(CallId(n)) == n && IsReadCall(CallId(n))
  {
    assert PREFIX % WORD == 0;
    assert CallId(n) % WORD == (n + 1) % WORD;
  }

  // ------------------------------------------------------------------- state

  /** `issued` counts the calls made so far; `asked` is what each was asked for, and of which file. */
  datatype Asked = Asked(disk: Disk, offset: uint32, size: uint32)

  datatype Cache = Cache(
    calls: map<uint64, ReadCall>, order: seq<uint64>, bytes: int, issued: nat, asked: map<uint64, Asked>)

  const Empty := Cache(map[], [], 0, 0, map[])

  function Bytes(calls: map<uint64, ReadCall>, order: seq<uint64>): nat {
    if order == [] then 0 else (if order[0] in calls then |calls[order[0]].data| else 0) + Bytes(calls, order[1..])
  }

  predicate Oldest(order: seq<uint64>, issued: nat) {
    && (forall i :: 0 <= i < |order| ==> CallIndex(order[i]) < issued)
    && forall i, j :: 0 <= i < j < |order| ==> CallIndex(order[i]) < CallIndex(order[j])
  }

  predicate Fits(count: nat, bytes: int) {
    count <= MAX_CALLS && bytes <= MAX_BYTES
  }

  /** Map, queue and byte count agree, within the limits, and every result is what was captured. */
  ghost predicate Valid(c: Cache) {
    && Queues(c.order, c.calls)
    && Oldest(c.order, c.issued)
    && c.bytes == Bytes(c.calls, c.order)
    && Fits(|c.order|, c.bytes)
    && Faithful(c)
  }

  /** The queue holds exactly the calls in the map. */
  ghost predicate Queues(order: seq<uint64>, calls: map<uint64, ReadCall>) {
    forall id :: id in order <==> id in calls
  }

  /** Every result is the one that was captured for its id. */
  predicate Faithful(c: Cache) {
    && (forall id <- c.asked :: CallIndex(id) < c.issued && id == CallId(CallIndex(id)))
    && forall id <- c.calls :: id in c.asked && c.calls[id] == Captured(c.asked[id].disk, c.asked[id].offset, c.asked[id].size)
  }

  // -------------------------------------------------------------- operations

  function DroppedOldest(c: Cache): Cache
    requires c.order != []
  {
    var oldest := c.order[0];
    if oldest in c.calls then c.(order := c.order[1..], calls := c.calls - {oldest}, bytes := c.bytes - |c.calls[oldest].data|)
    else c.(order := c.order[1..])
  }

  /** Drops from the front until the new result fits. */
  function Evicted(c: Cache, size: nat): Cache
    decreases |c.order|
  {
    if c.order != [] && (|c.calls| >= MAX_CALLS || c.bytes + size > MAX_BYTES) then Evicted(DroppedOldest(c), size) else c
  }

  function Stored(c: Cache, call: uint64, r: ReadCall): Cache {
    var e := Evicted(c, |r.data|);
    e.(bytes := e.bytes + |r.data|, calls := if call in e.calls then e.calls else e.calls[call := r], order := e.order + [call])
  }

  function Made(c: Cache, disk: Disk, offset: uint32, size: uint32): Cache {
    var call := CallId(c.issued);
    Stored(c, call, Captured(disk, offset, size)).(issued := c.issued + 1, asked := c.asked[call := Asked(disk, offset, size)])
  }

  /** The queue without the first occurrence. */
  function WithoutCall(order: seq<uint64>, call: uint64): seq<uint64> {
    if order == [] then [] else if order[0] == call then order[1..] else [order[0]] + WithoutCall(order[1..], call)
  }

  lemma {:induction false} WithoutFirst(order: seq<uint64>, call: uint64, i: nat)
    requires i <= |order| && (forall j :: 0 <= j < i ==> order[j] != call) && (i < |order| ==> order[i] == call)
    ensures WithoutCall(order, call) == order[..i] + if i < |order| then order[i + 1..] else []
  {
    if i > 0 {
      assert order[1..][..i - 1] == order[1..i];
      WithoutFirst(order[1..], call, i - 1);
    }
  }

  function Erased(c: Cache, call: uint64): Cache {
    if call !in c.calls then c
    else c.(bytes := c.bytes - |c.calls[call].data|, calls := c.calls - {call}, order := WithoutCall(c.order, call))
  }

  predicate Completes(c: Cache, call: uint64, bufferSize: uint32, hasBuffer: bool) {
    && IsReadCall(call) && call in c.calls && c.calls[call].result == Ok
    && bufferSize >= c.calls[call].requestedSize && (hasBuffer || c.calls[call].requestedSize == 0)
  }

  datatype Op =
    | Make(disk: Disk, offset: uint32, size: uint32)
    | GetResult(call: uint64, wellFormed: bool)
    | Complete(call: uint64, bufferSize: uint32, hasBuffer: bool)

  function Step(c: Cache, op: Op): Cache {
    match op
    case Make(disk, offset, size) => Made(c, disk, offset, size)
    case GetResult(call, wellFormed) =>
      if IsReadCall(call) && wellFormed && call in c.calls && c.calls[call].result != Ok then Erased(c, call) else c
    case Complete(call, bufferSize, hasBuffer) => if Completes(c, call, bufferSize, hasBuffer) then Erased(c, call) else c
  }

  // -------------------------------------------------------------- invariance

  lemma {:induction false} BytesWithout(calls: map<uint64, ReadCall>, order: seq<uint64>, call: uint64)
    requires call !in order
    ensures Bytes(calls - {call}, order) == Bytes(calls, order)
  {
    if order != [] {
      BytesWithout(calls, order[1..], call);
    }
  }

  lemma {:induction false} BytesAppend(calls: map<uint64, ReadCall>, order: seq<uint64>, call: uint64, r: ReadCall)
    requires call !in order
    ensures Bytes(calls[call := r], order + [call]) == Bytes(calls, order) + |r.data|
  {
    if order == [] {
      assert [call][1..] == [];
    } else {
      assert (order + [call])[1..] == order[1..] + [call];
      BytesAppend(calls, order[1..], call, r);
    }
  }

  lemma {:induction false} BytesErased(calls: map<uint64, ReadCall>, order: seq<uint64>, call: uint64, issued: nat)
    requires Oldest(order, issued) && call in order && call in calls
    ensures Bytes(calls, order) == Bytes(calls - {call}, WithoutCall(order, call)) + |calls[call].data|
  {
    if order[0] == call {
      assert call !in order[1..] by {
        assert forall j :: 0 < j < |order| ==> CallIndex(order[0]) < CallIndex(order[j]);
      }
      BytesWithout(calls, order[1..], call);
    } else {
      OldestTail(order, issued);
      BytesErased(calls, order[1..], call, issued);
      assert ([order[0]] + WithoutCall(order[1..], call))[1..] == WithoutCall(order[1..], call);
    }
  }

  lemma OldestTail(order: seq<uint64>, issued: nat)
    requires Oldest(order, issued) && order != []
    ensures Oldest(order[1..], issued) && order[0] !in order[1..]
  {
    assert forall j :: 0 < j < |order| ==> CallIndex(order[0]) < CallIndex(order[j]);
  }

  lemma {:induction false} WithoutCallMembers(order: seq<uint64>, call: uint64, issued: nat)
    requires Oldest(order, issued)
    ensures var w := WithoutCall(order, call);
      (forall id :: id in w <==> id in order && id != call) && |w| <= |order|
  {
    hide CallIndex, Oldest;
    if order != [] {
      OldestTail(order, issued);
      WithoutCallMembers(order[1..], call, issued);
    }
  }

  lemma {:induction false} WithoutCallIsOldest(order: seq<uint64>, call: uint64, issued: nat)
    requires Oldest(order, issued)
    ensures Oldest(WithoutCall(order, call), issued)
  {
    if order != [] {
      OldestTail(order, issued);
      WithoutCallIsOldest(order[1..], call, issued);
      WithoutCallMembers(order[1..], call, issued);
      if order[0] != call {
        assert [order[0]] + order[1..] == order;
        OldestCons(order[0], order[1..], WithoutCall(order[1..], call), issued);
      }
    }
  }

  lemma OldestCons(first: uint64, all: seq<uint64>, some: seq<uint64>, issued: nat)
    requires Oldest([first] + all, issued) && Oldest(some, issued) && forall id <- some :: id in all
    ensures Oldest([first] + some, issued)
  {
    hide CallIndex;
    assert ([first] + all)[0] == first;
    forall i | 0 <= i < |some|
      ensures CallIndex(first) < CallIndex(some[i])
    {
      assert some[i] in some;
      var j :| 0 <= j < |all| && all[j] == some[i];
      assert ([first] + all)[j + 1] == all[j];
    }
  }

  lemma {:induction false} CallsCount(c: Cache, order: seq<uint64>, calls: set<uint64>, issued: nat)
    requires (forall id :: id in order <==> id in calls) && Oldest(order, issued)
    ensures |calls| == |order|
    decreases order
  {
    if order == [] {
      assert calls == {};
    } else {
      OldestTail(order, issued);
      CallsCount(c, order[1..], calls - {order[0]}, issued);
    }
  }

  lemma QueuesWithout(order: seq<uint64>, left: seq<uint64>, calls: map<uint64, ReadCall>, call: uint64)
    requires Queues(order, calls) && forall id :: id in left <==> id in order && id != call
    ensures Queues(left, calls - {call})
  {
  }

  /** Taking one call out of the map and the queue. */
  lemma RemovedIsValid(c: Cache, call: uint64, left: seq<uint64>)
    requires Valid(c) && call in c.calls
    requires (forall id :: id in left <==> id in c.order && id != call) && |left| <= |c.order| && Oldest(left, c.issued)
    requires Bytes(c.calls, c.order) == Bytes(c.calls - {call}, left) + |c.calls[call].data|
    ensures Valid(c.(bytes := c.bytes - |c.calls[call].data|, calls := c.calls - {call}, order := left))
  {
    hide CallIndex, CallId, Captured, Oldest, Bytes;
    QueuesWithout(c.order, left, c.calls, call);
  }

  lemma DroppedIsValid(c: Cache)
    requires Valid(c) && c.order != []
    ensures var d := DroppedOldest(c);
      && Valid(d) && d.issued == c.issued && d.asked == c.asked
      && d.order == c.order[1..] && |d.calls| == |c.calls| - 1
      && forall id <- d.calls :: id in c.calls && d.calls[id] == c.calls[id]
  {
    hide CallIndex, CallId, Captured, Oldest, Bytes, Faithful;
    OldestTail(c.order, c.issued);
    BytesWithout(c.calls, c.order[1..], c.order[0]);
    BytesFirst(c.calls, c.order);
    assert c.order[0] in c.order;
    RemovedIsValid(c, c.order[0], c.order[1..]);
    assert DroppedOldest(c).calls.Keys == c.calls.Keys - {c.order[0]};
  }

  lemma BytesFirst(calls: map<uint64, ReadCall>, order: seq<uint64>)
    requires order != []
    ensures Bytes(calls, order) == (if order[0] in calls then |calls[order[0]].data| else 0) + Bytes(calls, order[1..])
  {
  }

  lemma NothingFits(c: Cache, size: nat)
    requires Valid(c) && size <= MAX_BYTES
    ensures c.order == [] ==> c.bytes + size <= MAX_BYTES
    ensures |c.calls| == |c.order|
  {
    CallsCount(c, c.order, c.calls.Keys, c.issued);
  }

  /** Eviction takes the oldest results and no more than it must. */
  lemma {:induction false} EvictsAsLittleAsPossible(c: Cache, size: nat) returns (k: nat)
    requires Valid(c) && size <= MAX_BYTES
    ensures var e := Evicted(c, size);
      && Valid(e) && e.issued == c.issued && e.asked == c.asked
      && |e.order| < MAX_CALLS && e.bytes + size <= MAX_BYTES
      && k <= |c.order| && e.order == c.order[k..]
      && (forall id <- e.calls :: id in c.calls && e.calls[id] == c.calls[id])
    ensures forall j :: 0 <= j < k ==> TooMuch(c, j, size)
    decreases |c.order|
  {
    hide Valid, Bytes, DroppedOldest, TooMuch;
    NothingFits(c, size);
    if c.order != [] && (|c.calls| >= MAX_CALLS || c.bytes + size > MAX_BYTES) {
      DroppedIsValid(c);
      var d := DroppedOldest(c);
      var m := EvictsAsLittleAsPossible(d, size);
      k := m + 1;
      forall j | 0 <= j < k
        ensures TooMuch(c, j, size)
      {
        if j > 0 {
          assert TooMuch(d, j - 1, size);
          DroppedTooMuch(c, j, size);
        } else {
          AllTooMuch(c, size);
        }
      }
    } else {
      k := 0;
    }
  }

  /** With only the j oldest results gone, the new one does not fit. */
  predicate TooMuch(c: Cache, j: nat, size: nat) {
    j <= |c.order| && (|c.order| - j >= MAX_CALLS || Bytes(c.calls, c.order[j..]) + size > MAX_BYTES)
  }

  lemma AllTooMuch(c: Cache, size: nat)
    requires Valid(c) && (|c.order| >= MAX_CALLS || c.bytes + size > MAX_BYTES)
    ensures TooMuch(c, 0, size)
  {
    assert c.order[0..] == c.order;
  }

  lemma DroppedTooMuch(c: Cache, j: nat, size: nat)
    requires Valid(c) && c.order != [] && 0 < j && TooMuch(DroppedOldest(c), j - 1, size)
    ensures TooMuch(c, j, size)
  {
    hide Bytes;
    DroppedBytes(c, j);
  }

  lemma DroppedBytes(c: Cache, j: nat)
    requires Valid(c) && c.order != [] && j <= |c.order|
    ensures c.order[0..] == c.order
    ensures j > 0 ==>
      && DroppedOldest(c).order[j - 1..] == c.order[j..]
      && Bytes(DroppedOldest(c).calls, c.order[j..]) == Bytes(c.calls, c.order[j..])
  {
    if j > 0 {
      OldestTail(c.order, c.issued);
      assert c.order[1..][j - 1..] == c.order[j..];
      assert c.order[0] !in c.order[j..];
      BytesWithout(c.calls, c.order[j..], c.order[0]);
    }
  }

  lemma MakeKeepsValid(c: Cache, disk: Disk, offset: uint32, size: uint32)
    requires Valid(c) && c.issued < WORD
    ensures Valid(Made(c, disk, offset, size))
    ensures var m := Made(c, disk, offset, size); CallId(c.issued) !in c.asked && CallId(c.issued) in m.calls
  {
    hide Evicted, Bytes, Captured, CallId, CallIndex;
    var call, r := CallId(c.issued), Captured(disk, offset, size);
    var k := EvictsAsLittleAsPossible(c, |r.data|);
    var e := Evicted(c, |r.data|);
    IdsAreIndexed(c.issued);
    assert call !in c.asked && call !in e.calls;
    BytesAppend(e.calls, e.order, call, r);
    AppendIsValid(e, call, disk, offset, size);
  }

  lemma AppendIsValid(e: Cache, call: uint64, disk: Disk, offset: uint32, size: uint32)
    requires Valid(e) && call == CallId(e.issued) && CallIndex(call) == e.issued && call !in e.asked && call !in e.calls
    requires |e.order| < MAX_CALLS && e.bytes + |Captured(disk, offset, size).data| <= MAX_BYTES
    requires Bytes(e.calls[call := Captured(disk, offset, size)], e.order + [call]) == e.bytes + |Captured(disk, offset, size).data|
    ensures var r := Captured(disk, offset, size);
      Valid(Cache(e.calls[call := r], e.order + [call], e.bytes + |r.data|, e.issued + 1, e.asked[call := Asked(disk, offset, size)]))
  {
    hide CallIndex, Captured, Bytes;
    var order := e.order + [call];
    assert forall id :: id in order <==> id in e.order || id == call;
  }

  lemma EraseKeepsValid(c: Cache, call: uint64)
    requires Valid(c)
    ensures Valid(Erased(c, call)) && call !in Erased(c, call).calls
  {
    if call in c.calls {
      IsQueued(c, call);
      hide Valid, CallIndex, CallId, Captured, Oldest, Bytes, WithoutCall;
      BytesErased(c.calls, c.order, call, c.issued);
      WithoutCallMembers(c.order, call, c.issued);
      WithoutCallIsOldest(c.order, call, c.issued);
      RemovedIsValid(c, call, WithoutCall(c.order, call));
    }
  }

  lemma IsQueued(c: Cache, call: uint64)
    requires Valid(c) && call in c.calls
    ensures call in c.order && Oldest(c.order, c.issued)
  {
  }

  lemma StepKeepsValid(c: Cache, op: Op)
    requires Valid(c) && c.issued < WORD
    ensures Valid(Step(c, op))
  {
    hide Valid, Made, Erased;
    match op
    case Make(disk, offset, size) => MakeKeepsValid(c, disk, offset, size);
    case GetResult(call, _) => EraseKeepsValid(c, call);
    case Complete(call, _, _) => EraseKeepsValid(c, call);
  }

  function Run(c: Cache, ops: seq<Op>): Cache
    decreases |ops|
  {
    if ops == [] then c else Step(Run(c, ops[..|ops| - 1]), ops[|ops| - 1])
  }

  function Makes(ops: seq<Op>): nat
    decreases |ops|
  {
    if ops == [] then 0 else Makes(ops[..|ops| - 1]) + if ops[|ops| - 1].Make? then 1 else 0
  }

  lemma {:induction false} RunKeepsValid(ops: seq<Op>)
    requires Makes(ops) < WORD
    ensures Valid(Run(Empty, ops)) && Run(Empty, ops).issued == Makes(ops)
    decreases |ops|
  {
    if ops != [] {
      hide Valid;
      var some := ops[..|ops| - 1];
      RunKeepsValid(some);
      StepKeepsValid(Run(Empty, some), ops[|ops| - 1]);
      StepIssues(Run(Empty, some), ops[|ops| - 1]);
    } else {
      EmptyIsValid();
    }
  }

  /** No more than 16 results are kept, of 100 megabytes at most. */
  lemma KeepsWithinLimits(ops: seq<Op>)
    requires Makes(ops) < WORD
    ensures |Run(Empty, ops).calls| <= 16 && Run(Empty, ops).bytes <= 104_857_600
  {
    RunKeepsValid(ops);
    AsManyAsQueued(Run(Empty, ops));
  }

  lemma AsManyAsQueued(c: Cache)
    requires Queues(c.order, c.calls)
    ensures |c.calls| <= |c.order|
  {
    SizeOfSet(c.calls.Keys, c.order);
    assert |c.calls| == |c.calls.Keys|;
  }

  lemma EmptyIsValid()
    ensures Valid(Empty)
  {
  }

  lemma StepIssues(c: Cache, op: Op)
    ensures Step(c, op).issued == c.issued + if op.Make? then 1 else 0
  {
  }

  /** The n-th call of a run, and what it was asked for. */
  lemma {:induction false} AskedWhenIssued(ops: seq<Op>, id: uint64) returns (m: nat)
    requires Makes(ops) < WORD && id in Run(Empty, ops).asked
    ensures m < |ops| && ops[m].Make? && id == CallId(Makes(ops[..m]))
    ensures Run(Empty, ops).asked[id] == Asked(ops[m].disk, ops[m].offset, ops[m].size)
    decreases |ops|
  {
    hide Stored;
    var n := |ops| - 1;
    var some := ops[..n];
    RunKeepsValid(some);
    if ops[n].Make? && id == CallId(Makes(some)) {
      m := n;
    } else {
      StepAsks(Run(Empty, some), ops[n]);
      m := AskedWhenIssued(some, id);
      assert some[..m] == ops[..m];
    }
  }

  lemma StepAsks(c: Cache, op: Op)
    ensures Step(c, op).asked == if op.Make? then c.asked[CallId(c.issued) := Asked(op.disk, op.offset, op.size)] else c.asked
  {
  }

  /**
   A completed call hands over exactly the part of the file that was there when the call
   was made, and it fits the buffer.
   */
  lemma CompletedIsTheSlice(ops: seq<Op>, call: uint64, bufferSize: uint32, hasBuffer: bool) returns (m: nat)
    requires Makes(ops) < WORD && Completes(Run(Empty, ops), call, bufferSize, hasBuffer)
    ensures m < |ops| && ops[m].Make? && call == CallId(Makes(ops[..m]))
    ensures ops[m].disk.Contents?
    ensures Run(Empty, ops).calls[call].data == Slice(ops[m].disk.bytes, ops[m].offset, ops[m].size)
    ensures |Run(Empty, ops).calls[call].data| <= bufferSize
  {
    RunKeepsValid(ops);
    m := AskedWhenIssued(ops, call);
  }

  /** A call that is gone, fetched or evicted, stays gone. */
  lemma GoneStaysGone(c: Cache, op: Op, id: uint64)
    requires Valid(c) && c.issued < WORD && id in c.asked && id !in c.calls
    ensures id in Step(c, op).asked && id !in Step(c, op).calls
  {
    hide CallIndex, CallId, Captured, Bytes;
    match op
    case Make(disk, offset, size) =>
      MakeKeepsValid(c, disk, offset, size);
      var k := EvictsAsLittleAsPossible(c, |Captured(disk, offset, size).data|);
    case _ =>
  }

  lemma {:induction false} NothingIsHandedOverTwice(ops: seq<Op>, n: nat, id: uint64)
    requires Makes(ops) < WORD && n <= |ops|
    requires id in Run(Empty, ops[..n]).asked && id !in Run(Empty, ops[..n]).calls
    ensures id !in Run(Empty, ops).calls && id in Run(Empty, ops).asked
    decreases |ops|
  {
    hide Valid, Step;
    if n == |ops| {
      assert ops[..n] == ops;
    } else {
      var some := ops[..|ops| - 1];
      assert some[..n] == ops[..n];
      NothingIsHandedOverTwice(some, n, id);
      RunKeepsValid(some);
      GoneStaysGone(Run(Empty, some), ops[|ops| - 1], id);
    }
  }

  // ------------------------------------------------------------------- the class

  class SavedReads {
    var readCalls: map<uint64, ReadCall>
    var readCallOrder: seq<uint64>
    var pendingReadBytes: int
    var readCallCounter: uint32

    ghost var issued: nat
    ghost var asked: map<uint64, Asked>

    constructor ()
      ensures Now() == Empty && CounterIsRight()
    {
      readCalls, readCallOrder, pendingReadBytes, readCallCounter := map[], [], 0, 1;
      issued, asked := 0, map[];
    }

    ghost function Now(): Cache
      reads this
    {
      Cache(readCalls, readCallOrder, pendingReadBytes, issued, asked)
    }

    ghost predicate CounterIsRight()
      reads this
    {
      readCallCounter == (issued + 1) % WORD
    }

    method EraseReadCall(call: uint64)
      modifies `readCalls, `readCallOrder, `pendingReadBytes
      ensures Now() == Erased(old(Now()), call)
    {
      if call !in readCalls {
        return;
      }
      pendingReadBytes := pendingReadBytes - |readCalls[call].data|;
      readCalls := readCalls - {call};
      var i := 0;
      while i < |readCallOrder| && readCallOrder[i] != call
        invariant i <= |readCallOrder| && forall j :: 0 <= j < i ==> readCallOrder[j] != call
      {
        i := i + 1;
      }
      WithoutFirst(readCallOrder, call, i);
      if i < |readCallOrder| {
        readCallOrder := readCallOrder[..i] + readCallOrder[i + 1..];
      }
    }

    /** Evicts from the front of the queue until the result fits, and appends it. */
    method StoreReadCall(call: uint64, r: ReadCall)
      modifies `readCalls, `readCallOrder, `pendingReadBytes
      ensures Now() == Stored(old(Now()), call, r)
    {
      hide DroppedOldest;
      while readCallOrder != [] && (|readCalls| >= MAX_CALLS || pendingReadBytes + |r.data| > MAX_BYTES)
        invariant Evicted(Now(), |r.data|) == Evicted(old(Now()), |r.data|)
        decreases |readCallOrder|
      {
        DropOldest();
      }
      pendingReadBytes := pendingReadBytes + |r.data|;
      if call !in readCalls {
        readCalls := readCalls[call := r];
      }
      readCallOrder := readCallOrder + [call];
    }

    method DropOldest()
      requires readCallOrder != []
      modifies `readCalls, `readCallOrder, `pendingReadBytes
      ensures Now() == DroppedOldest(old(Now())) && |readCallOrder| < |old(readCallOrder)|
    {
      var oldest := readCallOrder[0];
      readCallOrder := readCallOrder[1..];
      if oldest in readCalls {
        pendingReadBytes := pendingReadBytes - |readCalls[oldest].data|;
        readCalls := readCalls - {oldest};
      }
    }

    method MakeReadCall(disk: Disk, offset: uint32, size: uint32) returns (call: uint64)
      requires CounterIsRight()
      modifies this
      ensures CounterIsRight() && call == CallId(old(issued))
      ensures Now() == Step(old(Now()), Make(disk, offset, size))
    {
      hide Captured, Stored;
      call := PREFIX + readCallCounter;
      readCallCounter := (readCallCounter + 1) % WORD;
      var r := ReadFile(disk, offset, size);
      StoreReadCall(call, r);
      asked := asked[call := Asked(disk, offset, size)];
      issued := issued + 1;
    }

    /** Opens, measures and reads the file. */
    method ReadFile(disk: Disk, offset: uint32, size: uint32) returns (r: ReadCall)
      ensures r == Captured(disk, offset, size)
    {
      r := ReadCall(Fail, offset, size, []);
      if size > MAX_BYTES {
        return r.(result := InvalidParam);
      }
      match disk
      case Missing => r := r.(result := FileNotFound);
      case Unreadable =>
      case Contents(bytes) =>
        var bytesToRead := if offset < |bytes| then Min(size, |bytes| - offset) else 0;
        r := r.(result := Ok, data := if bytesToRead == 0 then [] else bytes[offset..offset + bytesToRead]);
    }

    /** Tells how a read went; a read that went wrong is forgotten. */
    method GetReadCallResult(call: uint64, wellFormed: bool) returns (found: Option<(Result, uint32, nat)>)
      modifies `readCalls, `readCallOrder, `pendingReadBytes
      ensures Now() == Step(old(Now()), GetResult(call, wellFormed))
      ensures found.Some? <==> IsReadCall(call) && wellFormed && call in old(readCalls)
      ensures found.Some? ==> var r := old(readCalls)[call]; found.value == (r.result, r.offset, |r.data|)
    {
      if !IsReadCall(call) || !wellFormed || call !in readCalls {
        return None;
      }
      var r := readCalls[call];
      if r.result != Ok {
        EraseReadCall(call);
      }
      return Some((r.result, r.offset, |r.data|));
    }

    /** Hands the bytes over and forgets them. */
    method CompleteReadCall(call: uint64, bufferSize: uint32, hasBuffer: bool) returns (ok: bool, data: seq<byte>)
      modifies `readCalls, `readCallOrder, `pendingReadBytes
      ensures Now() == Step(old(Now()), Complete(call, bufferSize, hasBuffer))
      ensures ok <==> Completes(old(Now()), call, bufferSize, hasBuffer)
      ensures ok ==> data == old(readCalls)[call].data
    {
      if !IsReadCall(call) || call !in readCalls || readCalls[call].result != Ok {
        return false, [];
      }
      var r := readCalls[call];
      if bufferSize < r.requestedSize || (!hasBuffer && r.requestedSize != 0) {
        return false, [];
      }
      EraseReadCall(call);
      return true, r.data;
    }
  }
}
