// What the relational store supplies to the handlers beyond the rows
// themselves: the order in which a query returns rows (ascending primary
// key) and the primary key it allocates for a new row.

module Query {

  /** The smallest key of a non-empty key set. */
  function Min(s: set<int>): (m: int)
    requires s != {}
    ensures m in s
    ensures forall k :: k in s ==> m <= k
    decreases |s|
  {
    assert exists m :: m in s && forall k :: k in s ==> m <= k by {
      if forall x :: x !in s { assert false; }
      var x :| x in s;
      var rest := s - {x};
      if rest == {} {
        assert s == {x};
      } else {
        var least := Min(rest);
        var m := if x < least then x else least;
        forall k | k in s ensures m <= k {
          if k != x { assert k in rest; }
        }
        assert m in s;
      }
    }
    var m :| m in s && forall k :: k in s ==> m <= k;
    m
  }

  /** The keys of a table in the order a query returns its rows: every key
      exactly once, ascending. */
  function Ordered(keys: set<int>): (r: seq<int>)
    ensures |r| == |keys|
    ensures forall k :: k in r <==> k in keys
    ensures forall i, j :: 0 <= i < j < |r| ==> r[i] < r[j]
    decreases |keys|
  {
    if keys == {} then []
    else
      var m := Min(keys);
      [m] + Ordered(keys - {m})
  }

  /** `next` is the key the next row of a table holding `keys` gets:
      above every key, and one more than the largest, or 1 when empty. */
  predicate NextAfter(keys: set<int>, next: int)
  {
    && (forall k :: k in keys ==> k < next)
    && (keys == {} ==> next == 1)
    && (keys != {} ==> next - 1 in keys)
  }

  /** Inserting the row under that key makes the following key next. */
  lemma NextAfterInsert(keys: set<int>, next: int)
    requires NextAfter(keys, next)
    ensures next !in keys
    ensures NextAfter(keys + {next}, next + 1)
  {
  }

  /** The key SQLite gives the next row of a table: one more than the
      largest key in use, or 1 for an empty table. */
  method NextKey(keys: set<int>) returns (r: int)
    ensures forall k :: k in keys ==> k < r
    ensures keys == {} ==> r == 1
    ensures keys != {} ==> r - 1 in keys
  {
    var s := Ordered(keys);
    if s == [] {
      r := 1;
    } else {
      var top := s[|s| - 1];
      forall k | k in keys ensures k <= top {
        var i :| 0 <= i < |s| && s[i] == k;
        assert i == |s| - 1 || s[i] < top;
      }
      r := top + 1;
    }
  }
}
