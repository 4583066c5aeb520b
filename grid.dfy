/** Cells of the 10x10 battle grid and small helpers shared by the server
    engine and the client. */
module Grid {

  /** ROWS, COLS of both the server and the client. */
  const Rows: int := 10
  const Cols: int := 10

  /** A (row, col) tuple. Coordinates are Python ints: nothing forces them
      into the grid, so they are unbounded here. */
  datatype Pos = Pos(row: int, col: int)

  datatype Option<T> = None | Some(value: T)

  predicate InGrid(p: Pos) {
    0 <= p.row < Rows && 0 <= p.col < Cols
  }

  predicate NoDuplicates<T(==)>(s: seq<T>) {
    forall i, j :: 0 <= i < j < |s| ==> s[i] != s[j]
  }

  function Elements<T(==)>(s: seq<T>): set<T> {
    set x | x in s
  }

  /** A list without duplicates has as many distinct elements as entries. */
  lemma {:induction false} DistinctCount<T>(s: seq<T>)
    requires NoDuplicates(s)
    ensures |Elements(s)| == |s|
  {
    if s != [] {
      DistinctCount(s[1..]);
      assert Elements(s) == Elements(s[1..]) + {s[0]};
      assert s[0] !in Elements(s[1..]) by {
        forall k | 0 <= k < |s[1..]| ensures s[1..][k] != s[0] {
          assert s[1..][k] == s[k + 1];
        }
      }
    }
  }
}
