/**
  A Go slice: a window lo..hi of a backing array. Dropping the first element moves the window,
  appending writes behind it while there is room, and writing to an element writes to the array.
 */
module Slices {

  class Slice<T(!new)> {
    var buf: array<T>
    var lo: nat
    var hi: nat

    ghost predicate Valid()
      reads this
    {
      lo <= hi <= buf.Length
    }

    ghost function Contents(): seq<T>
      requires Valid()
      reads this, buf
    {
      buf[lo..hi]
    }

    constructor (empty: array<T>)
      requires empty.Length == 0
      ensures Valid() && buf == empty && Contents() == []
    {
      buf := empty;
      lo, hi := 0, 0;
    }

    function Len(): nat
      requires Valid()
      reads this, buf
      ensures Len() == |Contents()|
    {
      hi - lo
    }

    function At(k: nat): T
      requires Valid() && k < Len()
      reads this, buf
      ensures At(k) == Contents()[k]
    {
      buf[lo + k]
    }

    method Put(k: nat, x: T)
      requires Valid() && k < Len()
      modifies buf
      ensures Valid() && Contents() == old(Contents())[k := x]
    {
      buf[lo + k] := x;
    }

    method Truncate(n: nat)
      requires Valid() && n <= Len()
      modifies this`hi
      ensures Valid() && Contents() == old(Contents())[..n]
    {
      hi := lo + n;
    }

    method DropFirst()
      requires Valid() && 0 < Len()
      modifies this`lo
      ensures Valid() && Contents() == old(Contents())[1..]
    {
      lo := lo + 1;
    }

    method Append(x: T)
      requires Valid()
      modifies this, buf
      ensures Valid() && (buf == old(buf) || fresh(buf))
      ensures Contents() == old(Contents()) + [x]
    {
      ghost var was := Contents();
      if hi == buf.Length {
        var grown := new T[2 * (hi - lo) + 1](_ => x);
        forall i | 0 <= i < hi - lo {
          grown[i] := buf[lo + i];
        }
        buf, lo, hi := grown, 0, hi - lo;
      }
      assert Contents() == was;
      buf[hi] := x;
      hi := hi + 1;
    }
  }
}
