/**
 The sampler: how many foods are drawn and which fdc_id values the draw yields.
 The seeded random permutation is not modelled; the draw is a parameter holding the row
 positions it picked, constrained only by what a draw without replacement guarantees.
 */
module Sampling {
  import opened Tables
  import opened Catalog

  /** The largest number of foods the script samples. */
  const MaxSampleSize: nat := 5000

  /** How many food rows are sampled out of `n`. */
  function TargetCount(n: nat): (k: nat)
    ensures k <= n && k <= MaxSampleSize
    ensures k == n || k == MaxSampleSize
  {
    if n < MaxSampleSize then n else MaxSampleSize
  }

  /** Every position in `draw` names a row of `food`. */
  ghost predicate InRange(food: Table, draw: seq<nat>)
  {
    forall k :: 0 <= k < |draw| ==> draw[k] < |food.rows|
  }

  /** No row is drawn twice. */
  ghost predicate NoRepeats(draw: seq<nat>)
  {
    forall a, b :: 0 <= a < b < |draw| ==> draw[a] != draw[b]
  }

  /** A draw of the target number of distinct rows of `food`, without replacement. */
  ghost predicate ValidDraw(food: Table, draw: seq<nat>)
  {
    && |draw| == TargetCount(|food.rows|)
    && InRange(food, draw)
    && NoRepeats(draw)
  }

  /** Whatever the food table, some draw is valid: the first rows in table order. */
  lemma DrawExists(food: Table) returns (draw: seq<nat>)
    ensures ValidDraw(food, draw)
  {
    draw := seq(TargetCount(|food.rows|), i => i);
  }

  /** The fdc_id values occurring in `food`. */
  ghost function FoodIds(food: Table): set<Value>
  {
    set r | r in food.rows :: Cell(r, FdcId)
  }

  /** The key set: the distinct fdc_id values of the drawn rows. */
  function SampleKeys(food: Table, draw: seq<nat>): (ids: set<Value>)
    requires InRange(food, draw)
    ensures ids <= FoodIds(food)
    ensures forall k :: 0 <= k < |draw| ==> Cell(food.rows[draw[k]], FdcId) in ids
    ensures forall v :: v in ids ==> exists k :: 0 <= k < |draw| && Cell(food.rows[draw[k]], FdcId) == v
  {
    assert forall k :: 0 <= k < |draw| ==> food.rows[draw[k]] in food.rows;
    set k | 0 <= k < |draw| :: Cell(food.rows[draw[k]], FdcId)
  }

  /** The keys of a draw are the key of its first row plus the keys of the rest. */
  lemma SampleKeysCons(food: Table, draw: seq<nat>)
    requires InRange(food, draw) && draw != []
    ensures SampleKeys(food, draw) == {Cell(food.rows[draw[0]], FdcId)} + SampleKeys(food, draw[1..])
  {
    var rest := draw[1..];
    forall v | v in SampleKeys(food, draw)
      ensures v in {Cell(food.rows[draw[0]], FdcId)} + SampleKeys(food, rest)
    {
      var k :| 0 <= k < |draw| && Cell(food.rows[draw[k]], FdcId) == v;
      if k > 0 {
        assert rest[k - 1] == draw[k];
      }
    }
    forall v | v in SampleKeys(food, rest)
      ensures v in SampleKeys(food, draw)
    {
      var k :| 0 <= k < |rest| && Cell(food.rows[rest[k]], FdcId) == v;
      assert rest[k] == draw[k + 1];
    }
  }

  /** A draw yields at most as many keys as it has rows. */
  lemma {:induction false} SampleKeysAtMostDraw(food: Table, draw: seq<nat>)
    requires InRange(food, draw)
    ensures |SampleKeys(food, draw)| <= |draw|
  {
    if draw != [] {
      SampleKeysCons(food, draw);
      SampleKeysAtMostDraw(food, draw[1..]);
    }
  }

  /** The sampled keys are fdc_id values of `food`, at most min(5000, |food|) of them. */
  lemma SampleKeysBounded(food: Table, draw: seq<nat>)
    requires ValidDraw(food, draw)
    ensures SampleKeys(food, draw) <= FoodIds(food)
    ensures |SampleKeys(food, draw)| <= TargetCount(|food.rows|) <= MaxSampleSize
  {
    SampleKeysAtMostDraw(food, draw);
  }

  /** fdc_id is a key of `food`: no two rows share a value. */
  ghost predicate UniqueIds(food: Table)
  {
    forall i, j :: 0 <= i < j < |food.rows| ==> Cell(food.rows[i], FdcId) != Cell(food.rows[j], FdcId)
  }

  /** With fdc_id a key, distinct drawn rows give distinct keys. */
  lemma {:induction false} DistinctDrawDistinctKeys(food: Table, draw: seq<nat>)
    requires InRange(food, draw) && NoRepeats(draw) && UniqueIds(food)
    ensures |SampleKeys(food, draw)| == |draw|
  {
    if draw != [] {
      var rest := draw[1..];
      assert NoRepeats(rest) by {
        forall a, b | 0 <= a < b < |rest|
          ensures rest[a] != rest[b]
        {
          assert rest[a] == draw[a + 1] && rest[b] == draw[b + 1];
        }
      }
      DistinctDrawDistinctKeys(food, rest);
      SampleKeysCons(food, draw);
      var head := Cell(food.rows[draw[0]], FdcId);
      forall k | 0 <= k < |rest|
        ensures Cell(food.rows[rest[k]], FdcId) != head
      {
        assert rest[k] == draw[k + 1];
        assert draw[k + 1] != draw[0];
      }
      assert head !in SampleKeys(food, rest);
    }
  }

  /** With fdc_id a key, the sample has exactly min(5000, |food|) distinct keys. */
  lemma SampleSizeExact(food: Table, draw: seq<nat>)
    requires ValidDraw(food, draw) && UniqueIds(food)
    ensures |SampleKeys(food, draw)| == TargetCount(|food.rows|)
  {
    DistinctDrawDistinctKeys(food, draw);
  }

  /** A set of positions below `m` has at most `m` members. */
  lemma {:induction false} BoundedSetSize(s: set<nat>, m: nat)
    requires forall x :: x in s ==> x < m
    ensures |s| <= m
  {
    if m > 0 {
      BoundedSetSize(s - {m - 1}, m - 1);
    } else {
      assert s == {} by {
        assert forall x :: x !in s;
      }
    }
  }

  /** A set of `n` positions below `n` holds every position below `n`. */
  lemma {:induction false} FullBoundedSet(s: set<nat>, n: nat)
    requires forall x :: x in s ==> x < n
    requires |s| == n
    ensures forall i :: 0 <= i < n ==> i in s
  {
    if n > 0 {
      BoundedSetSize(s - {n - 1}, n - 1);
      assert n - 1 in s;
      FullBoundedSet(s - {n - 1}, n - 1);
    }
  }

  /** The row positions a draw hits. */
  ghost function Drawn(draw: seq<nat>): set<nat>
  {
    set k | k in draw
  }

  /** The members of a repetition-free draw number as many as the draw is long. */
  lemma {:induction false} NoRepeatsSize(draw: seq<nat>)
    requires NoRepeats(draw)
    ensures |Drawn(draw)| == |draw|
  {
    if draw != [] {
      var rest := draw[1..];
      assert NoRepeats(rest) by {
        forall a, b | 0 <= a < b < |rest|
          ensures rest[a] != rest[b]
        {
          assert rest[a] == draw[a + 1] && rest[b] == draw[b + 1];
        }
      }
      NoRepeatsSize(rest);
      forall k | 0 <= k < |rest|
        ensures rest[k] != draw[0]
      {
        assert rest[k] == draw[k + 1];
      }
      assert draw[0] !in Drawn(rest);
      assert draw == [draw[0]] + rest;
      assert Drawn(draw) == {draw[0]} + Drawn(rest);
    }
  }

  /** A draw of every row of a table hits every row. */
  lemma FullDrawCoversRows(food: Table, draw: seq<nat>)
    requires InRange(food, draw) && NoRepeats(draw) && |draw| == |food.rows|
    ensures forall i :: 0 <= i < |food.rows| ==> i in draw
  {
    NoRepeatsSize(draw);
    FullBoundedSet(Drawn(draw), |food.rows|);
    forall i | 0 <= i < |food.rows|
      ensures i in draw
    {
      assert i in Drawn(draw);
    }
  }

  /** When the food table has at most 5000 rows, every food is sampled. */
  lemma SmallFoodFullySampled(food: Table, draw: seq<nat>)
    requires ValidDraw(food, draw) && |food.rows| <= MaxSampleSize
    ensures SampleKeys(food, draw) == FoodIds(food)
  {
    FullDrawCoversRows(food, draw);
    forall v | v in FoodIds(food)
      ensures v in SampleKeys(food, draw)
    {
      var r :| r in food.rows && Cell(r, FdcId) == v;
      var i :| 0 <= i < |food.rows| && food.rows[i] == r;
      assert i in draw;
      var k :| 0 <= k < |draw| && draw[k] == i;
      assert Cell(food.rows[draw[k]], FdcId) == v;
    }
  }
}
