/** Opening a case: a rarity by weight, then an item of that rarity (case_opening.cpp). */
module CaseOpening {
  import opened Prelude
  import opened ItemSchema
  import opened LootLists

  /** The configured weights, and 0 for a rarity that has none. */
  datatype RarityWeight = RarityWeight(rarity: uint32, weight: real)

  function WeightOf(config: seq<RarityWeight>, rarity: uint32): real {
    if config == [] then 0.0
    else if config[0].rarity == rarity then config[0].weight
    else WeightOf(config[1..], rarity)
  }

  predicate NoneNegative(config: seq<RarityWeight>) {
    forall w <- config :: w.weight >= 0.0
  }

  lemma {:induction false} WeightsAreNotNegative(config: seq<RarityWeight>, rarity: uint32)
    requires NoneNegative(config)
    ensures WeightOf(config, rarity) >= 0.0
  {
    if config != [] {
      assert config[0] in config;
      WeightsAreNotNegative(config[1..], rarity);
    }
  }

  // ----------------------------------------------------------- sorted by rarity

  predicate Sorted(items: seq<LootListItem>) {
    forall i, j :: 0 <= i < j < |items| ==> CaseRarity(items[i]) <= CaseRarity(items[j])
  }

  predicate HasRarity(items: seq<LootListItem>, r: uint32) {
    exists item <- items :: CaseRarity(item) == r
  }

  /** The first place from which on the rarity is at least, or more than, the one given. */
  predicate IsBound(items: seq<LootListItem>, r: uint32, more: bool, k: nat) {
    && k <= |items|
    && (forall i :: 0 <= i < k ==> CaseRarity(items[i]) < r || (more && CaseRarity(items[i]) == r))
    && forall i :: k <= i < |items| ==> CaseRarity(items[i]) > r || (!more && CaseRarity(items[i]) == r)
  }

  /** std::lower_bound, or with `more` std::upper_bound, from a place on. */
  method Bound(items: seq<LootListItem>, from: nat, r: uint32, more: bool) returns (k: nat)
    requires Sorted(items) && from <= |items|
    requires forall i :: 0 <= i < from ==> CaseRarity(items[i]) < r
    ensures from <= k && IsBound(items, r, more, k)
  {
    k := from;
    var hi := |items|;
    while k < hi
      invariant from <= k <= hi <= |items|
      invariant forall i :: 0 <= i < k ==> CaseRarity(items[i]) < r || (more && CaseRarity(items[i]) == r)
      invariant forall i :: hi <= i < |items| ==> CaseRarity(items[i]) > r || (!more && CaseRarity(items[i]) == r)
    {
      var mid := (k + hi) / 2;
      if CaseRarity(items[mid]) < r || (more && CaseRarity(items[mid]) == r) {
        k := mid + 1;
      } else {
        hi := mid;
      }
    }
  }

  /** Exactly the items of the rarity. */
  method FindRarityRange(items: seq<LootListItem>, r: uint32) returns (begin: nat, end: nat)
    requires Sorted(items)
    ensures begin <= end <= |items|
    ensures forall i :: 0 <= i < |items| ==> (begin <= i < end <==> CaseRarity(items[i]) == r)
    ensures begin < end <==> HasRarity(items, r)
  {
    begin := Bound(items, 0, r, false);
    end := Bound(items, begin, r, true);
    if begin < end {
      assert items[begin] in items;
    }
    if HasRarity(items, r) {
      var i :| 0 <= i < |items| && CaseRarity(items[i]) == r;
      assert begin <= i;
    }
  }

  // ------------------------------------------------------------------- weights

  /** The rarities of the list, each once, with their weights. */
  function Weights(config: seq<RarityWeight>, items: seq<LootListItem>): seq<RarityWeight>
    decreases |items|
  {
    if items == [] then []
    else
      var n := |items| - 1;
      var r := CaseRarity(items[n]);
      var before := Weights(config, items[..n]);
      if n > 0 && CaseRarity(items[n - 1]) == r then before else before + [RarityWeight(r, WeightOf(config, r))]
  }

  /** The weights before the k-th, added up. */
  function Sum(ws: seq<RarityWeight>, k: nat): real
    requires k <= |ws|
  {
    if k == 0 then 0.0 else Sum(ws, k - 1) + ws[k - 1].weight
  }

  /** The loops of RandomRarityForItems that gather the weights. */
  method GatherWeights(config: seq<RarityWeight>, items: seq<LootListItem>) returns (weights: seq<RarityWeight>, total: real)
    ensures weights == Weights(config, items) && total == Sum(weights, |weights|)
  {
    weights, total := [], 0.0;
    var i := 0;
    while i < |items|
      invariant i <= |items|
      invariant weights == Weights(config, items[..i]) && total == Sum(weights, |weights|)
      invariant 0 < i < |items| ==> CaseRarity(items[i]) != CaseRarity(items[i - 1])
    {
      var rarity := CaseRarity(items[i]);
      var weight := WeightOf(config, rarity);
      WeightsNext(config, items, i);
      SumAppend(weights, RarityWeight(rarity, weight));
      weights := weights + [RarityWeight(rarity, weight)];
      total := total + weight;
      while i + 1 < |items| && CaseRarity(items[i]) == CaseRarity(items[i + 1])
        invariant i < |items| && CaseRarity(items[i]) == rarity
        invariant weights == Weights(config, items[..i + 1])
      {
        WeightsNext(config, items, i + 1);
        i := i + 1;
      }
      i := i + 1;
    }
    assert items[..|items|] == items;
  }

  lemma WeightsNext(config: seq<RarityWeight>, items: seq<LootListItem>, i: nat)
    requires i < |items|
    ensures var r := CaseRarity(items[i]);
      Weights(config, items[..i + 1]) == Weights(config, items[..i])
        + if i > 0 && CaseRarity(items[i - 1]) == r then [] else [RarityWeight(r, WeightOf(config, r))]
  {
    assert items[..i + 1][..i] == items[..i];
  }

  lemma {:induction false} SumPrefix(ws: seq<RarityWeight>, w: RarityWeight, k: nat)
    requires k <= |ws|
    ensures Sum(ws + [w], k) == Sum(ws, k)
  {
    if k > 0 {
      SumPrefix(ws, w, k - 1);
    }
  }

  lemma SumAppend(ws: seq<RarityWeight>, w: RarityWeight)
    ensures Sum(ws + [w], |ws| + 1) == Sum(ws, |ws|) + w.weight
  {
    SumPrefix(ws, w, |ws|);
  }

  predicate Ascending(ws: seq<RarityWeight>) {
    forall i, j :: 0 <= i < j < |ws| ==> ws[i].rarity < ws[j].rarity
  }

  predicate FromConfig(config: seq<RarityWeight>, ws: seq<RarityWeight>) {
    forall w <- ws :: w.weight == WeightOf(config, w.rarity)
  }

  predicate HasWeight(ws: seq<RarityWeight>, r: uint32) {
    exists w <- ws :: w.rarity == r
  }

  ghost predicate SameRarities(items: seq<LootListItem>, ws: seq<RarityWeight>) {
    forall r: uint32 :: HasRarity(items, r) <==> HasWeight(ws, r)
  }

  predicate EndAlike(items: seq<LootListItem>, ws: seq<RarityWeight>) {
    if items == [] then ws == [] else ws != [] && ws[|ws| - 1].rarity == CaseRarity(items[|items| - 1])
  }

  /** On a sorted list the rarities are in increasing order, and are those of the items. */
  lemma {:induction false} WeightsMeaning(config: seq<RarityWeight>, items: seq<LootListItem>)
    requires Sorted(items)
    ensures var ws := Weights(config, items);
      Ascending(ws) && FromConfig(config, ws) && SameRarities(items, ws) && EndAlike(items, ws)
    decreases |items|
  {
    if items != [] {
      hide Ascending, FromConfig, SameRarities, WeightOf, HasRarity, HasWeight;
      var n := |items| - 1;
      var before, ws, r := items[..n], Weights(config, items[..n]), CaseRarity(items[n]);
      WeightsMeaning(config, before);
      assert items == before + [items[n]];
      if n > 0 && CaseRarity(items[n - 1]) == r {
        assert before[n - 1] == items[n - 1];
        SameRarityAgain(before, ws, items[n]);
      } else {
        var w := RarityWeight(r, WeightOf(config, r));
        assert n > 0 ==> before[n - 1] == items[n - 1];
        AscendingMore(ws, w);
        FromConfigMore(config, ws, r);
        NewRarity(before, ws, items[n], w);
      }
    }
  }

  lemma AscendingMore(ws: seq<RarityWeight>, w: RarityWeight)
    requires Ascending(ws) && (ws != [] ==> ws[|ws| - 1].rarity < w.rarity)
    ensures Ascending(ws + [w])
  {
  }

  lemma FromConfigMore(config: seq<RarityWeight>, ws: seq<RarityWeight>, r: uint32)
    requires FromConfig(config, ws)
    ensures FromConfig(config, ws + [RarityWeight(r, WeightOf(config, r))])
  {
  }

  lemma SameRarityAgain(items: seq<LootListItem>, ws: seq<RarityWeight>, item: LootListItem)
    requires SameRarities(items, ws) && items != [] && CaseRarity(items[|items| - 1]) == CaseRarity(item)
    ensures SameRarities(items + [item], ws)
  {
    RarityOfMore(items, item);
    assert items[|items| - 1] in items;
    assert HasRarity(items, CaseRarity(item));
  }

  lemma NewRarity(items: seq<LootListItem>, ws: seq<RarityWeight>, item: LootListItem, w: RarityWeight)
    requires SameRarities(items, ws) && w.rarity == CaseRarity(item)
    ensures SameRarities(items + [item], ws + [w])
  {
    RarityOfMore(items, item);
    assert w in ws + [w] && forall x <- ws :: x in ws + [w];
    forall r: uint32
      ensures HasWeight(ws + [w], r) <==> HasWeight(ws, r) || w.rarity == r
    {
    }
  }

  lemma RarityOfMore(items: seq<LootListItem>, item: LootListItem)
    ensures forall r: uint32 :: HasRarity(items + [item], r) <==> HasRarity(items, r) || CaseRarity(item) == r
  {
    assert item in items + [item];
    assert forall x <- items :: x in items + [item];
  }

  // ------------------------------------------------------------------- the draw

  /** The first weight whose running total passes the value. */
  predicate Picks(ws: seq<RarityWeight>, value: real, k: nat) {
    && k < |ws| && !Passes(ws, value, k)
    && forall i :: 0 <= i < k ==> Passes(ws, value, i)
  }

  predicate Passes(ws: seq<RarityWeight>, value: real, k: nat)
    requires k < |ws|
  {
    value >= Sum(ws, k + 1)
  }

  method Draw(ws: seq<RarityWeight>, value: real) returns (k: nat)
    ensures if k < |ws| then Picks(ws, value, k) else k == |ws| && forall i :: 0 <= i < |ws| ==> Passes(ws, value, i)
  {
    var accum := 0.0;
    k := 0;
    while k < |ws|
      invariant k <= |ws| && accum == Sum(ws, k)
      invariant forall i :: 0 <= i < k ==> Passes(ws, value, i)
    {
      accum := accum + ws[k].weight;
      if value < accum {
        return;
      }
      k := k + 1;
    }
  }

  function Max(a: real, b: real): real {
    if a < b then b else a
  }

  function Min(a: real, b: real): real {
    if a < b then a else b
  }

  /** The largest of the running totals up to the k-th, the empty one included. */
  function Peak(ws: seq<RarityWeight>, k: nat): real
    requires k <= |ws|
  {
    if k == 0 then 0.0 else Max(Peak(ws, k - 1), Sum(ws, k))
  }

  lemma {:induction false} PeakMeaning(ws: seq<RarityWeight>, value: real, k: nat)
    requires k <= |ws|
    ensures Peak(ws, k) <= value <==> 0.0 <= value && forall i :: 0 <= i < k ==> Passes(ws, value, i)
  {
    if k > 0 {
      PeakMeaning(ws, value, k - 1);
      assert Passes(ws, value, k - 1) <==> value >= Sum(ws, k);
    }
  }

  lemma {:induction false} PeakIsHighest(ws: seq<RarityWeight>, k: nat)
    requires k <= |ws|
    ensures Sum(ws, k) <= Peak(ws, k) && 0.0 <= Peak(ws, k)
  {
    if k > 0 {
      PeakIsHighest(ws, k - 1);
    }
  }

  /** For weights of any sign: a weight is picked from the peak before it up to its running total. */
  lemma PickedInterval(ws: seq<RarityWeight>, value: real, k: nat)
    requires k < |ws| && value >= 0.0
    ensures Picks(ws, value, k) <==> Peak(ws, k) <= value < Sum(ws, k + 1)
  {
    PeakMeaning(ws, value, k);
  }

  lemma SumNext(ws: seq<RarityWeight>, k: nat)
    requires k < |ws|
    ensures Sum(ws, k + 1) == Sum(ws, k) + ws[k].weight && Sum(ws, 0) == 0.0
  {
  }

  lemma {:induction false} SumGrows(ws: seq<RarityWeight>, i: nat, j: nat)
    requires i <= j <= |ws| && forall w <- ws :: w.weight >= 0.0
    ensures Sum(ws, i) <= Sum(ws, j)
  {
    if i < j {
      SumGrows(ws, i, j - 1);
      assert ws[j - 1] in ws;
    }
  }

  /** The rarity a value in the range of the weights stands for. */
  ghost predicate Chosen(config: seq<RarityWeight>, items: seq<LootListItem>, value: real, r: uint32) {
    exists k: nat :: k < |Weights(config, items)| && Weights(config, items)[k].rarity == r && Picks(Weights(config, items), value, k)
  }

  function TotalWeight(config: seq<RarityWeight>, items: seq<LootListItem>): real {
    Sum(Weights(config, items), |Weights(config, items)|)
  }

  /** A rarity drawn by `chance`, a number from 0 up to but not including 1; 0 when the draw picks none. */
  method RandomRarityForItems(config: seq<RarityWeight>, items: seq<LootListItem>, chance: real) returns (rarity: uint32)
    requires Sorted(items) && 0.0 <= chance < 1.0
    ensures var value := Scaled(chance, TotalWeight(config, items));
      || (Chosen(config, items, value, rarity) && HasRarity(items, rarity))
      || (rarity == 0 && forall r: uint32 :: !Chosen(config, items, value, r))
    ensures TotalWeight(config, items) > 0.0 ==> HasRarity(items, rarity)
  {
    hide Scaled, WeightOf, Weights, Sum, Picks, HasRarity, Passes;
    var weights, total := GatherWeights(config, items);
    var value := Scaled(chance, total);
    var k := Draw(weights, value);
    if k == |weights| {
      NothingPicked(config, items, value);
      if total > 0.0 {
        ScaledIsBelow(chance, total);
        TotalOfNone(config, items);
      }
      return 0;
    }
    PickIsChosen(config, items, value, k);
    return weights[k].rarity;
  }

  lemma PickIsChosen(config: seq<RarityWeight>, items: seq<LootListItem>, value: real, k: nat)
    requires Sorted(items) && Picks(Weights(config, items), value, k)
    ensures var r := Weights(config, items)[k].rarity; Chosen(config, items, value, r) && HasRarity(items, r)
  {
    WeightsMeaning(config, items);
    assert Weights(config, items)[k] in Weights(config, items);
    assert HasWeight(Weights(config, items), Weights(config, items)[k].rarity);
  }

  /** A value that picks nothing is not below the total, or there are no weights. */
  lemma NothingPicked(config: seq<RarityWeight>, items: seq<LootListItem>, value: real)
    requires forall i :: 0 <= i < |Weights(config, items)| ==> Passes(Weights(config, items), value, i)
    ensures Weights(config, items) == [] || value >= TotalWeight(config, items)
    ensures forall r: uint32 :: !Chosen(config, items, value, r)
  {
    hide Weights;
    var ws := Weights(config, items);
    if ws != [] {
      assert Passes(ws, value, |ws| - 1);
    }
  }

  lemma TotalOfNone(config: seq<RarityWeight>, items: seq<LootListItem>)
    ensures Weights(config, items) == [] ==> TotalWeight(config, items) == 0.0
  {
  }

  /** Random::Float(0, total), as a share of the total. */
  function Scaled(chance: real, total: real): real {
    chance * total
  }

  lemma ScaledIsBelow(chance: real, total: real)
    requires 0.0 <= chance < 1.0 && total > 0.0
    ensures 0.0 <= Scaled(chance, total) < total
  {
    assert (1.0 - chance) * total > 0.0;
  }

  /** The place of a rarity among the weights: how many lower ones there are. */
  function Rank(ws: seq<RarityWeight>, r: uint32): nat
    decreases |ws|
  {
    if ws == [] then 0 else Rank(ws[..|ws| - 1], r) + if ws[|ws| - 1].rarity < r then 1 else 0
  }

  lemma {:induction false} RankIsIndex(ws: seq<RarityWeight>, k: nat, n: nat)
    requires k < |ws| && n <= |ws| && Ascending(ws)
    ensures Rank(ws[..n], ws[k].rarity) == if n < k then n else k
  {
    if n > 0 {
      assert ws[..n][..n - 1] == ws[..n - 1];
      RankIsIndex(ws, k, n - 1);
    }
  }

  lemma RankOf(config: seq<RarityWeight>, items: seq<LootListItem>, r: uint32)
    requires Sorted(items) && HasRarity(items, r)
    ensures var ws := Weights(config, items);
      && Ascending(ws) && Rank(ws, r) < |ws|
      && ws[Rank(ws, r)] == RarityWeight(r, WeightOf(config, r))
  {
    hide WeightOf, Weights, Rank;
    var ws := Weights(config, items);
    WeightsMeaning(config, items);
    assert HasWeight(ws, r);
    var w :| w in ws && w.rarity == r;
    var k :| 0 <= k < |ws| && ws[k] == w;
    RankIsIndex(ws, k, |ws|);
    assert ws[..|ws|] == ws;
  }

  /** Where the draws of a rarity begin: at the highest running total of the lower ones. */
  function Low(config: seq<RarityWeight>, items: seq<LootListItem>, r: uint32): real {
    var ws := Weights(config, items);
    if Rank(ws, r) < |ws| then Peak(ws, Rank(ws, r)) else 0.0
  }

  /** The weights of the rarities up to and including this one. */
  function UpTo(config: seq<RarityWeight>, items: seq<LootListItem>, r: uint32): real {
    var ws := Weights(config, items);
    if Rank(ws, r) < |ws| then Sum(ws, Rank(ws, r) + 1) else 0.0
  }

  /** Where they end. */
  function High(config: seq<RarityWeight>, items: seq<LootListItem>, r: uint32): real {
    Min(UpTo(config, items, r), TotalWeight(config, items))
  }

  predicate InRange(config: seq<RarityWeight>, items: seq<LootListItem>, value: real) {
    0.0 <= value < TotalWeight(config, items)
  }

  /**
   For a list sorted by rarity and weights of any sign: among the values that can be drawn,
   a rarity of the list is chosen by exactly those of one half-open interval.
   */
  lemma ChosenInterval(config: seq<RarityWeight>, items: seq<LootListItem>, value: real, r: uint32)
    requires Sorted(items) && HasRarity(items, r) && InRange(config, items, value)
    ensures Chosen(config, items, value, r) <==> Low(config, items, r) <= value < High(config, items, r)
  {
    hide Weights, Rank, Peak, Sum, WeightOf;
    var ws := Weights(config, items);
    RankOf(config, items, r);
    PickedInterval(ws, value, Rank(ws, r));
    if Chosen(config, items, value, r) {
      var j: nat :| j < |ws| && ws[j].rarity == r && Picks(ws, value, j);
      assert j == Rank(ws, r);
    }
  }

  /** A rarity can be drawn exactly when its interval is not empty. */
  lemma CanComeUp(config: seq<RarityWeight>, items: seq<LootListItem>, r: uint32)
    requires Sorted(items) && HasRarity(items, r)
    ensures (exists value: real :: InRange(config, items, value) && Chosen(config, items, value, r))
      <==> Low(config, items, r) < High(config, items, r)
  {
    hide Chosen;
    LowIsNotNegative(config, items, r);
    if Low(config, items, r) < High(config, items, r) {
      ChosenInterval(config, items, Low(config, items, r), r);
    }
    forall value: real | InRange(config, items, value) && Chosen(config, items, value, r)
      ensures Low(config, items, r) < High(config, items, r)
    {
      ChosenInterval(config, items, value, r);
    }
  }

  lemma LowIsNotNegative(config: seq<RarityWeight>, items: seq<LootListItem>, r: uint32)
    ensures Low(config, items, r) >= 0.0
  {
    var ws := Weights(config, items);
    if Rank(ws, r) < |ws| {
      PeakIsHighest(ws, Rank(ws, r));
    }
  }

  /**
   The interval of a rarity with a positive weight is as long as the weight exactly when the
   running total before it is the highest so far, and the one after it is not above the
   total.
   */
  lemma LengthIsWeight(config: seq<RarityWeight>, items: seq<LootListItem>, r: uint32)
    requires Sorted(items) && HasRarity(items, r) && WeightOf(config, r) > 0.0
    ensures High(config, items, r) - Low(config, items, r) == WeightOf(config, r) <==>
      (UpTo(config, items, r) - WeightOf(config, r) == Low(config, items, r) && UpTo(config, items, r) <= TotalWeight(config, items))
    ensures High(config, items, r) - Low(config, items, r) <= WeightOf(config, r)
  {
    hide Weights, Rank, WeightOf, Peak, Sum;
    var ws := Weights(config, items);
    RankOf(config, items, r);
    SumNext(ws, Rank(ws, r));
    PeakIsHighest(ws, Rank(ws, r));
  }

  /** The weight of a rarity as it is configured: that of the first entry for it, or 0 without one. */
  ghost predicate Configured(config: seq<RarityWeight>, rarity: int, weight: real) {
    if forall w <- config :: w.rarity != rarity then weight == 0.0
    else exists k :: 0 <= k < |config| && config[k] == RarityWeight(rarity, weight) && forall j :: 0 <= j < k ==> config[j].rarity != rarity
  }

  lemma {:induction false} ConfiguredWeight(config: seq<RarityWeight>, r: uint32)
    ensures Configured(config, r, WeightOf(config, r))
  {
    if config == [] {
    } else if config[0].rarity == r {
      assert config[0] == RarityWeight(r, WeightOf(config, r)) && config[0] in config;
    } else {
      ConfiguredWeight(config[1..], r);
      assert forall w :: w in config <==> w == config[0] || w in config[1..];
      if exists w <- config :: w.rarity == r {
        var k :| 0 <= k < |config[1..]| && config[1..][k] == RarityWeight(r, WeightOf(config[1..], r))
          && forall j :: 0 <= j < k ==> config[1..][j].rarity != r;
        assert config[k + 1] == config[1..][k];
        assert forall j :: 0 < j < k + 1 ==> config[j] == config[1..][j - 1];
      }
    }
  }

  /**
   An unusual item is drawn with the weight configured for rarity 99, every other one with
   that of its own rarity: its interval ends that much above the total of the lower ones.
   */
  lemma ItemsAreWeighted(config: seq<RarityWeight>, items: seq<LootListItem>, item: LootListItem)
    requires Sorted(items) && item in items
    ensures var r: uint32 := if item.quality == 3 then 99 else item.rarity;
      && HasRarity(items, r) && Configured(config, r, WeightOf(config, r))
      && exists w <- Weights(config, items) :: w == RarityWeight(r, WeightOf(config, r))
  {
    hide Weights, WeightOf, Rank;
    var r: uint32 := if item.quality == 3 then 99 else item.rarity;
    assert CaseRarity(item) == r;
    ConfiguredWeight(config, r);
    RankOf(config, items, r);
    assert Weights(config, items)[Rank(Weights(config, items), r)] in Weights(config, items);
  }

  /** So when no weight is negative, every rarity has as much of the draw as it weighs. */
  lemma WeightsAreShares(config: seq<RarityWeight>, items: seq<LootListItem>, r: uint32)
    requires Sorted(items) && HasRarity(items, r) && NoneNegative(config)
    ensures High(config, items, r) - Low(config, items, r) == WeightOf(config, r)
  {
    hide Weights, Rank, WeightOf, Peak, Sum;
    var ws := Weights(config, items);
    RankOf(config, items, r);
    TotalIsNotNegative(config, items);
    SumNext(ws, Rank(ws, r));
    PeakIsSum(ws, Rank(ws, r));
    SumGrows(ws, Rank(ws, r) + 1, |ws|);
  }

  lemma {:induction false} PeakIsSum(ws: seq<RarityWeight>, k: nat)
    requires k <= |ws| && forall w <- ws :: w.weight >= 0.0
    ensures Peak(ws, k) == Sum(ws, k)
  {
    if k > 0 {
      PeakIsSum(ws, k - 1);
      assert ws[k - 1] in ws;
    }
  }

  /** The failing family: behind a negative weight a rarity gets less than it weighs. */
  lemma NegativeWeightShortens(config: seq<RarityWeight>, items: seq<LootListItem>)
    requires config == [RarityWeight(1, 3.0), RarityWeight(2, -1.0), RarityWeight(3, 2.0)]
    requires |items| == 3 && CaseRarity(items[0]) == 1 && CaseRarity(items[1]) == 2 && CaseRarity(items[2]) == 3
    ensures TotalWeight(config, items) == 4.0 && WeightOf(config, 3) == 2.0
    ensures Low(config, items, 3) == 3.0 && High(config, items, 3) == 4.0
  {
    ThreeWeights(config);
    ThreeRarities(config, items);
    hide WeightOf, Weights;
    var ws := [RarityWeight(1, 3.0), RarityWeight(2, -1.0), RarityWeight(3, 2.0)];
    assert Sum(ws, 1) == 3.0 && Sum(ws, 2) == 2.0 && Sum(ws, 3) == 4.0;
    assert Peak(ws, 1) == 3.0 && Peak(ws, 2) == 3.0;
    RankIsIndex(ws, 2, 3);
    assert ws[..3] == ws;
  }

  lemma ThreeWeights(config: seq<RarityWeight>)
    requires config == [RarityWeight(1, 3.0), RarityWeight(2, -1.0), RarityWeight(3, 2.0)]
    ensures WeightOf(config, 1) == 3.0 && WeightOf(config, 2) == -1.0 && WeightOf(config, 3) == 2.0
  {
    var two, one := [RarityWeight(2, -1.0), RarityWeight(3, 2.0)], [RarityWeight(3, 2.0)];
    assert config[1..] == two;
    assert two[1..] == one;
    assert WeightOf(one, 3) == 2.0;
    assert WeightOf(two, 3) == 2.0 && WeightOf(two, 2) == -1.0;
  }

  lemma ThreeRarities(config: seq<RarityWeight>, items: seq<LootListItem>)
    requires |items| == 3 && CaseRarity(items[0]) == 1 && CaseRarity(items[1]) == 2 && CaseRarity(items[2]) == 3
    ensures Weights(config, items)
      == [RarityWeight(1, WeightOf(config, 1)), RarityWeight(2, WeightOf(config, 2)), RarityWeight(3, WeightOf(config, 3))]
  {
    hide WeightOf;
    WeightsNext(config, items, 0);
    WeightsNext(config, items, 1);
    WeightsNext(config, items, 2);
    assert items[..0] == [] && items[..3] == items;
  }

  lemma TotalIsNotNegative(config: seq<RarityWeight>, items: seq<LootListItem>)
    requires Sorted(items) && NoneNegative(config)
    ensures TotalWeight(config, items) >= 0.0
    ensures forall w <- Weights(config, items) :: w.weight >= 0.0
  {
    WeightsMeaning(config, items);
    forall w | w in Weights(config, items)
      ensures w.weight >= 0.0
    {
      WeightsAreNotNegative(config, w.rarity);
    }
    SumGrows(Weights(config, items), 0, |Weights(config, items)|);
  }

  /** Without negative weights there is something to draw when some item of the list has a positive one. */
  lemma SomethingToDraw(config: seq<RarityWeight>, items: seq<LootListItem>, item: LootListItem)
    requires Sorted(items) && NoneNegative(config) && item in items && WeightOf(config, CaseRarity(item)) > 0.0
    ensures TotalWeight(config, items) > 0.0
  {
    hide Sum, WeightOf, Weights;
    var ws := Weights(config, items);
    WeightsMeaning(config, items);
    TotalIsNotNegative(config, items);
    assert HasRarity(items, CaseRarity(item));
    var w :| w in ws && w.rarity == CaseRarity(item);
    var k :| 0 <= k < |ws| && ws[k] == w;
    SumNext(ws, k);
    SumGrows(ws, 0, k);
    SumGrows(ws, k + 1, |ws|);
  }

  // ----------------------------------------------------------------- selection

  /** Any of the items of the rarity that is drawn. */
  method SelectLootListItem(config: seq<RarityWeight>, items: seq<LootListItem>, chance: real) returns (item: Option<LootListItem>)
    requires Sorted(items) && 0.0 <= chance < 1.0
    ensures TotalWeight(config, items) > 0.0 ==>
      && item.Some?
      && Chosen(config, items, Scaled(chance, TotalWeight(config, items)), if item.value.quality == 3 then 99 else item.value.rarity)
    ensures item.Some? ==> item.value in items
    ensures item.None? ==> !HasRarity(items, 0)
  {
    hide Scaled, Chosen;
    var rarity := RandomRarityForItems(config, items, chance);
    if TotalWeight(config, items) > 0.0 {
      SomeRarityIsChosen(config, items, chance);
    }
    var begin, end := FindRarityRange(items, rarity);
    if begin == end {
      return None;
    }
    var index: nat :| begin <= index < end;
    item := Some(items[index]);
  }

  lemma SomeRarityIsChosen(config: seq<RarityWeight>, items: seq<LootListItem>, chance: real)
    requires 0.0 <= chance < 1.0 && TotalWeight(config, items) > 0.0
    ensures exists r: uint32 :: Chosen(config, items, Scaled(chance, TotalWeight(config, items)), r)
  {
    hide Scaled, Weights;
    var ws, value := Weights(config, items), Scaled(chance, TotalWeight(config, items));
    ScaledIsBelow(chance, TotalWeight(config, items));
    assert !Passes(ws, value, |ws| - 1);
    var k := FirstNotPassed(ws, value, |ws| - 1);
    assert Chosen(config, items, value, ws[k].rarity);
  }

  lemma {:induction false} FirstNotPassed(ws: seq<RarityWeight>, value: real, n: nat) returns (k: nat)
    requires n < |ws| && !Passes(ws, value, n)
    ensures Picks(ws, value, k)
  {
    if i :| 0 <= i < n && !Passes(ws, value, i) {
      k := FirstNotPassed(ws, value, i);
    } else {
      k := n;
    }
  }

  /** std::sort with CompareRarity. */
  method SortByRarity(items: seq<LootListItem>) returns (sorted: seq<LootListItem>)
    ensures Sorted(sorted) && multiset(sorted) == multiset(items)
  {
    sorted := [];
    for i := 0 to |items|
      invariant Sorted(sorted) && multiset(sorted) == multiset(items[..i])
    {
      var r := CaseRarity(items[i]);
      var k := Bound(sorted, 0, r, true);
      InsertedIsSorted(sorted, items[i], k);
      assert items[..i + 1] == items[..i] + [items[i]];
      sorted := sorted[..k] + [items[i]] + sorted[k..];
    }
    assert items[..|items|] == items;
  }

  lemma InsertedIsSorted(items: seq<LootListItem>, item: LootListItem, k: nat)
    requires Sorted(items) && IsBound(items, CaseRarity(item), true, k)
    ensures Sorted(items[..k] + [item] + items[k..])
    ensures multiset(items[..k] + [item] + items[k..]) == multiset(items) + multiset{item}
  {
    assert items == items[..k] + items[k..];
  }

  /** Every way of sorting the items has a positive total weight. */
  ghost predicate Drawable(config: seq<RarityWeight>, items: seq<LootListItem>) {
    forall sorted: seq<LootListItem> :: Sorted(sorted) && multiset(sorted) == multiset(items) ==> TotalWeight(config, sorted) > 0.0
  }

  lemma WeighedIsDrawable(config: seq<RarityWeight>, items: seq<LootListItem>, item: LootListItem)
    requires NoneNegative(config) && item in items && WeightOf(config, CaseRarity(item)) > 0.0
    ensures Drawable(config, items)
  {
    forall sorted: seq<LootListItem> | Sorted(sorted) && multiset(sorted) == multiset(items)
      ensures TotalWeight(config, sorted) > 0.0
    {
      assert item in multiset(sorted);
      SomethingToDraw(config, sorted, item);
    }
  }

  /** A case whose rarities have a positive total gives an item of a list that can be reached from its own. */
  method SelectItemFromCrate(config: seq<RarityWeight>, lists: seq<LootList>, crate: nat, chance: real)
    returns (item: Option<LootListItem>)
    requires WellOrdered(lists) && crate < |lists| && 0.0 <= chance < 1.0
    ensures item.Some? ==> item.value in Flattened(lists, crate)
    ensures Drawable(config, Flattened(lists, crate)) ==> item.Some?
  {
    hide TotalWeight;
    var unusuals, items := GetLootListItems(lists, crate, []);
    assert [] + Flattened(lists, crate) == Flattened(lists, crate);
    if items == [] {
      EmptyIsNotDrawable(config);
      return None;
    }
    var sorted := SortByRarity(items);
    assert forall e :: e in sorted <==> e in multiset(sorted);
    assert forall e :: e in items <==> e in multiset(items);
    item := SelectLootListItem(config, sorted, chance);
  }

  lemma EmptyIsNotDrawable(config: seq<RarityWeight>)
    ensures !Drawable(config, [])
  {
    var sorted: seq<LootListItem> := [];
    assert Sorted(sorted) && multiset(sorted) == multiset([]) && TotalWeight(config, sorted) == 0.0;
  }
}
