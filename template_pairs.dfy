/** Folding a flat `--template` argument list `[field1, value1, field2, value2, …]` into a
    map by repeated `put`, shared by both convert commands. */
module TemplatePairs {

  /** The map after `put(pairs[2j], pairs[2j + 1])` for j = 0 .. k-1, in that order, starting
      from an empty map. */
  function PairsMap(pairs: seq<string>, k: nat): map<string, string>
    requires 2 * k <= |pairs|
  {
    if k == 0 then map[] else PairsMap(pairs, k - 1)[pairs[2 * k - 2] := pairs[2 * k - 1]]
  }

  /** The keys are exactly the fields, i.e. the even-indexed elements of the first k pairs. */
  lemma {:induction false} PairsMapKeys(pairs: seq<string>, k: nat)
    requires 2 * k <= |pairs|
    ensures PairsMap(pairs, k).Keys == set j | 0 <= j < k :: pairs[2 * j]
  {
    if k > 0 {
      PairsMapKeys(pairs, k - 1);
      var before := set j | 0 <= j < k - 1 :: pairs[2 * j];
      var after := set j | 0 <= j < k :: pairs[2 * j];
      assert after == before + {pairs[2 * (k - 1)]} by {
        forall x | x in after ensures x in before + {pairs[2 * (k - 1)]} {
          var j :| 0 <= j < k && x == pairs[2 * j];
          if j < k - 1 { assert x in before; }
        }
      }
    }
  }

  /** A map folded from k pairs has at most k entries (fewer when a field repeats). */
  lemma {:induction false} PairsMapSize(pairs: seq<string>, k: nat)
    requires 2 * k <= |pairs|
    ensures |PairsMap(pairs, k)| <= k
  {
    if k > 0 {
      PairsMapSize(pairs, k - 1);
      var m := PairsMap(pairs, k - 1);
      var key := pairs[2 * k - 2];
      if key in m {
        assert m[key := pairs[2 * k - 1]].Keys == m.Keys;
      } else {
        assert m[key := pairs[2 * k - 1]].Keys == m.Keys + {key};
      }
    }
  }

  /** Last write wins: a field maps to the value of its last pair. */
  lemma {:induction false} PairsMapLastWins(pairs: seq<string>, k: nat, j: nat)
    requires 2 * k <= |pairs| && j < k
    requires forall j' :: j < j' < k ==> pairs[2 * j'] != pairs[2 * j]
    ensures pairs[2 * j] in PairsMap(pairs, k)
    ensures PairsMap(pairs, k)[pairs[2 * j]] == pairs[2 * j + 1]
  {
    if j < k - 1 {
      PairsMapLastWins(pairs, k - 1, j);
      assert pairs[2 * (k - 1)] != pairs[2 * j];
    }
  }

  /** Every entry comes from a pair whose field occurs in no later pair. */
  lemma {:induction false} PairsMapFromLastPair(pairs: seq<string>, k: nat, key: string)
    requires 2 * k <= |pairs| && key in PairsMap(pairs, k)
    ensures exists j :: 0 <= j < k && pairs[2 * j] == key && PairsMap(pairs, k)[key] == pairs[2 * j + 1]
                        && forall j' :: j < j' < k ==> pairs[2 * j'] != key
  {
    if pairs[2 * k - 2] == key {
      var j := k - 1;
      assert pairs[2 * j] == key && PairsMap(pairs, k)[key] == pairs[2 * j + 1];
    } else {
      PairsMapFromLastPair(pairs, k - 1, key);
    }
  }

  /** The map depends only on the first k pairs: what follows them is never read. */
  lemma {:induction false} PairsMapPrefix(pairs: seq<string>, other: seq<string>, k: nat)
    requires 2 * k <= |pairs| && 2 * k <= |other| && pairs[..2 * k] == other[..2 * k]
    ensures PairsMap(pairs, k) == PairsMap(other, k)
  {
    if k > 0 {
      assert pairs[..2 * (k - 1)] == pairs[..2 * k][..2 * (k - 1)];
      assert other[..2 * (k - 1)] == other[..2 * k][..2 * (k - 1)];
      PairsMapPrefix(pairs, other, k - 1);
      assert pairs[2 * k - 2] == pairs[..2 * k][2 * k - 2] && pairs[2 * k - 1] == pairs[..2 * k][2 * k - 1];
      assert other[2 * k - 2] == other[..2 * k][2 * k - 2] && other[2 * k - 1] == other[..2 * k][2 * k - 1];
    }
  }

  /** `--template goal A --template goal B` leaves goal mapped to B, never to A. */
  lemma DuplicateFieldKeepsLastValue()
    ensures PairsMap(["goal", "A", "goal", "B"], 2) == map["goal" := "B"]
  {
  }
}
