/**
 * A store whose value is never read, as written and as repaired.
 *
 * As written, a variable's liveness ranges are read off the OUT sets alone.
 * A variable assigned and never read afterwards is in no OUT set, so it
 * gets no range and interferes with nothing: it may share a register with a
 * variable that is live across the store, and the store then overwrites
 * that variable's value. Here the method
 *
 *     1: y.i32 :=.i32 1.i32;
 *     2: x.i32 :=.i32 5.i32;
 *     3: ret.i32 y.i32;
 *
 * has `y` live at the end of 1 and 2 and `x` live nowhere. The repaired
 * rule counts an instruction as part of the range of the variable it
 * defines, which gives `x` and `y` intersecting ranges, hence an edge
 * (`Interference.EdgesExact`).
 */
module InterferenceFindings {
  import opened Wrappers
  import opened Liveness
  import opened Interference

  /** The instruction ids of the method above. */
  function Keys(): seq<int> { [1, 2, 3] }

  /** What each instruction defines. */
  function Defined(): Defs { map[1 := Some("y"), 2 := Some("x"), 3 := None] }

  /** The OUT sets of the three instructions. */
  function LiveOut(): OutSets { map[1 := multiset{"y"}, 2 := multiset{"y"}, 3 := multiset{}] }

  /** As written the dead store of `x` gives it no range, so it interferes with no variable, `y` included. */
  lemma DeadStoreNoEdge()
    ensures RangesOf(AsWritten, Defined(), LiveOut(), "x", Keys()) == []
    ensures RangesOf(AsWritten, Defined(), LiveOut(), "y", Keys()) == [Range(1, 3)]
    ensures !Intersects(RangesOf(AsWritten, Defined(), LiveOut(), "x", Keys()), RangesOf(AsWritten, Defined(), LiveOut(), "y", Keys()))
  {
    assert !LiveAtEnd(AsWritten, Defined(), LiveOut(), 1, "x");
    assert !LiveAtEnd(AsWritten, Defined(), LiveOut(), 2, "x");
    assert !LiveAtEnd(AsWritten, Defined(), LiveOut(), 3, "x");
    assert LiveAtEnd(AsWritten, Defined(), LiveOut(), 1, "y");
    assert LiveAtEnd(AsWritten, Defined(), LiveOut(), 2, "y");
    assert !LiveAtEnd(AsWritten, Defined(), LiveOut(), 3, "y");
  }

  /** Repaired, the same method gives `x` the range of its store, which meets the range of `y`. */
  lemma DeadStoreRepairedEdge()
    ensures RangesOf(Repaired, Defined(), LiveOut(), "x", Keys()) == [Range(2, 3)]
    ensures Intersects(RangesOf(Repaired, Defined(), LiveOut(), "x", Keys()), RangesOf(Repaired, Defined(), LiveOut(), "y", Keys()))
  {
    assert !LiveAtEnd(Repaired, Defined(), LiveOut(), 1, "x");
    assert LiveAtEnd(Repaired, Defined(), LiveOut(), 2, "x");
    assert !LiveAtEnd(Repaired, Defined(), LiveOut(), 3, "x");
    DeadStoreInterferes(Defined(), LiveOut(), "x", "y", Keys(), 1);
  }

  /**
   * Repaired, on any method: a variable defined by an instruction at whose
   * end another variable is live interferes with it, whether or not the
   * stored value is ever read.
   */
  lemma DeadStoreInterferes(defs: Defs, out: OutSets, x: string, y: string, keys: seq<int>, p: nat)
    requires GoodKeys(keys) && p < |keys|
    requires QuietEnd(Repaired, defs, out, x, keys) && QuietEnd(Repaired, defs, out, y, keys)
    requires DefOf(defs, keys[p]) == Some(x) && keys[p] in out && y in out[keys[p]]
    ensures Intersects(RangesOf(Repaired, defs, out, x, keys), RangesOf(Repaired, defs, out, y, keys))
  {
    LiveTogetherIntersect(Repaired, defs, out, x, y, keys, p);
  }
}
