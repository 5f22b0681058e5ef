/**
 * Facts about the readers' cursors.
 *
 * A reader whose cursor is `c` has consumed every index below `c`, so the readers that have
 * consumed index `j` are exactly those whose cursor is beyond `j`.
 */
module ReaderCursors {

  /** How many of the readers' cursors are beyond index `j`: the readers that have consumed `j`. */
  function CountPast(cursors: seq<int>, j: int): (n: nat)
    ensures n <= |cursors|
  {
    if cursors == [] then 0
    else (if cursors[0] > j then 1 else 0) + CountPast(cursors[1..], j)
  }

  /** Every reader has consumed index `j` exactly when all of them are counted. */
  lemma {:induction false} AllPast(cursors: seq<int>, j: int)
    ensures CountPast(cursors, j) == |cursors| <==> forall i :: 0 <= i < |cursors| ==> cursors[i] > j
  {
    if cursors != [] {
      AllPast(cursors[1..], j);
      assert forall i :: 1 <= i < |cursors| ==> cursors[i] == cursors[1..][i - 1];
    }
  }

  /** No reader has consumed index `j` exactly when none is counted. */
  lemma {:induction false} NonePast(cursors: seq<int>, j: int)
    ensures CountPast(cursors, j) == 0 <==> forall i :: 0 <= i < |cursors| ==> cursors[i] <= j
  {
    if cursors != [] {
      NonePast(cursors[1..], j);
      assert forall i :: 1 <= i < |cursors| ==> cursors[i] == cursors[1..][i - 1];
    }
  }

  /**
   * Advancing one reader's cursor by one adds that reader to the count of exactly one index:
   * the one it has just consumed.
   */
  lemma {:induction false} AdvanceOne(cursors: seq<int>, r: nat, j: int)
    requires r < |cursors|
    ensures CountPast(cursors[r := cursors[r] + 1], j)
            == CountPast(cursors, j) + (if cursors[r] == j then 1 else 0)
  {
    var advanced := cursors[r := cursors[r] + 1];
    if r == 0 {
      assert advanced[1..] == cursors[1..];
    } else {
      assert advanced[1..] == cursors[1..][r - 1 := cursors[r] + 1];
      AdvanceOne(cursors[1..], r - 1, j);
    }
  }
}
