/** Item ids: the account in the low word, a wrapping counter in the high word (inventory.cpp, AllocateItem). */
module ItemIds {
  import opened Prelude
  import opened Items

  const WORD := 0x1_0000_0000
  const USABLE := 0xF000_0000

  function ComposeItemId(accountId: uint32, high: uint32): uint64 {
    accountId + high * WORD
  }

  function HighItemId(itemId: uint64): uint32 {
    itemId / WORD
  }

  function Successor(high: uint32): uint32 {
    (high + 1) % WORD
  }

  /** Steps of the wrapping counter from one value to another. */
  function Distance(from: uint32, to: uint32): nat {
    (to - from) % WORD
  }

  predicate Free(ids: set<uint64>, accountId: uint32, high: uint32) {
    !IsDefaultItemId(ComposeItemId(accountId, high)) && ComposeItemId(accountId, high) !in ids
  }

  /** The probe that starts at `start` stops at `high`. */
  ghost predicate FirstFree(ids: set<uint64>, accountId: uint32, start: uint32, high: uint32) {
    && Free(ids, accountId, high)
    && forall h: uint32 :: Distance(start, h) < Distance(start, high) ==> !Free(ids, accountId, h)
  }

  lemma ComposeIsInjective(accountId: uint32, a: uint32, b: uint32)
    ensures ComposeItemId(accountId, a) == ComposeItemId(accountId, b) ==> a == b
    ensures HighItemId(ComposeItemId(accountId, a)) == a
  {
  }

  function IdsBelow(accountId: uint32, n: nat): set<uint64>
    requires n <= USABLE
  {
    set h: uint32 | 0 <= h < n :: ComposeItemId(accountId, h)
  }

  lemma {:induction false} CountIdsBelow(accountId: uint32, n: nat)
    requires n <= USABLE
    ensures |IdsBelow(accountId, n)| == n
  {
    if n == 0 {
      assert IdsBelow(accountId, 0) == {};
    } else {
      CountIdsBelow(accountId, n - 1);
      var last := ComposeItemId(accountId, n - 1);
      assert IdsBelow(accountId, n) == IdsBelow(accountId, n - 1) + {last};
      assert last !in IdsBelow(accountId, n - 1) by {
        forall h: uint32 | 0 <= h < n - 1
          ensures ComposeItemId(accountId, h) != last
        {
          ComposeIsInjective(accountId, h, n - 1);
        }
      }
    }
  }

  lemma SubsetIsNotLarger(a: set<uint64>, b: set<uint64>)
    requires a <= b
    ensures |a| <= |b|
  {
    assert b == a + (b - a);
  }

  /** With fewer items than usable ids there is one to find. */
  lemma FreeIdExists(ids: set<uint64>, accountId: uint32) returns (high: uint32)
    requires |ids| < USABLE
    ensures Free(ids, accountId, high)
  {
    CountIdsBelow(accountId, USABLE);
    if IdsBelow(accountId, USABLE) <= ids {
      SubsetIsNotLarger(IdsBelow(accountId, USABLE), ids);
      assert false;
    }
    var id :| id in IdsBelow(accountId, USABLE) && id !in ids;
    high := HighItemId(id);
  }

  lemma StepCloser(from: uint32, to: uint32)
    requires from != to
    ensures Distance(Successor(from), to) == Distance(from, to) - 1
  {
  }

  /** One more value rejected moves the start of the probe along. */
  lemma ProbeFurther(ids: set<uint64>, accountId: uint32, at: uint32, high: uint32)
    requires at != high && !Free(ids, accountId, at)
    requires FirstFree(ids, accountId, Successor(at), high)
    ensures FirstFree(ids, accountId, at, high)
  {
    forall h: uint32 | Distance(at, h) < Distance(at, high)
      ensures !Free(ids, accountId, h)
    {
      StepCloser(at, high);
      if h != at {
        StepCloser(at, h);
      }
    }
  }

  /** So the probe stops somewhere. */
  lemma {:induction false} FirstFreeExists(ids: set<uint64>, accountId: uint32, start: uint32, some: uint32) returns (high: uint32)
    requires Free(ids, accountId, some)
    ensures FirstFree(ids, accountId, start, high)
    decreases Distance(start, some)
  {
    if Free(ids, accountId, start) {
      assert Distance(start, start) == 0;
      high := start;
    } else {
      StepCloser(start, some);
      high := FirstFreeExists(ids, accountId, Successor(start), some);
      ProbeFurther(ids, accountId, start, high);
    }
  }

  lemma ProbeEnds(ids: set<uint64>, accountId: uint32, start: uint32)
    requires |ids| < USABLE
    ensures exists high: uint32 :: FirstFree(ids, accountId, start, high)
  {
    var some := FreeIdExists(ids, accountId);
    var high := FirstFreeExists(ids, accountId, start, some);
  }

  /** Where the probe stops. */
  ghost function FreshHigh(ids: set<uint64>, accountId: uint32, start: uint32): (high: uint32)
    requires |ids| < USABLE
    ensures FirstFree(ids, accountId, start, high)
  {
    ProbeEnds(ids, accountId, start);
    var high: uint32 :| FirstFree(ids, accountId, start, high);
    high
  }

  /** The probe stops at one place only. */
  lemma FirstFreeIsUnique(ids: set<uint64>, accountId: uint32, start: uint32, a: uint32, b: uint32)
    requires FirstFree(ids, accountId, start, a) && FirstFree(ids, accountId, start, b)
    ensures a == b
  {
    assert Distance(start, a) == Distance(start, b);
  }

  lemma OlderIsSmaller(id: uint64, accountId: uint32, last: uint32)
    requires HighItemId(id) <= last && last + 1 < USABLE
    ensures id < ComposeItemId(accountId, last + 1) < DEFAULT_ITEM_IDS
  {
    assert id < (HighItemId(id) + 1) * WORD;
  }

  /** Until the counter wraps, ids are handed out in increasing order. */
  lemma NextIdIsNewest(ids: set<uint64>, accountId: uint32, last: uint32, high: uint32)
    requires last + 1 < USABLE && forall id <- ids :: HighItemId(id) <= last
    requires FirstFree(ids, accountId, Successor(last), high)
    ensures high == last + 1
    ensures forall id <- ids :: id < ComposeItemId(accountId, high)
  {
    var next: uint32 := last + 1;
    forall id | id in ids
      ensures id < ComposeItemId(accountId, next)
    {
      OlderIsSmaller(id, accountId, last);
    }
    hide ComposeItemId, HighItemId;
    assert Free(ids, accountId, next);
    assert Distance(next, next) == 0;
    FirstFreeIsUnique(ids, accountId, next, high, next);
  }
}
