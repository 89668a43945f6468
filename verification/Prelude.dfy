/** Integer widths and the option type shared by every module. */
module Prelude {
  datatype Option<+T> = None | Some(value: T)

  newtype byte = x: int | 0 <= x < 0x100
  type uint32 = x: int | 0 <= x < 0x1_0000_0000
  type uint64 = x: int | 0 <= x < 0x1_0000_0000_0000_0000
  type int32 = x: int | -0x8000_0000 <= x < 0x8000_0000

  /** A C++ std::string or string_view: bytes, not characters. */
  type Text = seq<byte>

  lemma TailOfJoin<T>(a: seq<T>, b: seq<T>)
    ensures a == [] ==> a + b == b
    ensures a != [] ==> (a + b)[0] == a[0] && (a + b)[1..] == a[1..] + b
  {
  }

  lemma AppendAssociates<T>(a: seq<T>, b: seq<T>, c: seq<T>)
    ensures a + (b + c) == a + b + c
  {
  }

  /** A set is no larger than a sequence its elements are in. */
  lemma {:induction false} SizeOfSet<K>(s: set<K>, ks: seq<K>)
    requires forall k <- s :: k in ks
    ensures |s| <= |ks|
    decreases |ks|
  {
    if ks == [] {
      assert s == {};
    } else {
      var n := |ks| - 1;
      assert ks == ks[..n] + [ks[n]];
      SizeOfSet(s - {ks[n]}, ks[..n]);
      assert s <= (s - {ks[n]}) + {ks[n]};
    }
  }
}
