/** A list in a buffer of its own, which it outgrows from time to time. */
module Growing {

  class Buffer<T> {
    var buf: array<T>
    var len: nat

    ghost var items: seq<T>
    ghost var Repr: set<object>

    ghost predicate Valid()
      reads this, Repr
    {
      this in Repr && buf in Repr && len <= buf.Length && items == buf[..len]
    }

    constructor ()
      ensures Valid() && fresh(Repr) && items == []
    {
      buf := new T[0];
      len, items := 0, [];
      new;
      Repr := {this, buf};
    }

    /** Appends in place when there is room, and otherwise in a new buffer. */
    method Append(xs: seq<T>)
      requires Valid()
      modifies Repr
      ensures Valid() && fresh(Repr - old(Repr)) && items == old(items) + xs
    {
      if |xs| == 0 {
        return;
      }
      if len + |xs| > buf.Length {
        var bigger := new T[2 * (len + |xs|)](_ => xs[0]);
        forall i | 0 <= i < len {
          bigger[i] := buf[i];
        }
        buf := bigger;
        Repr := Repr + {bigger};
      }
      forall i | 0 <= i < |xs| {
        buf[len + i] := xs[i];
      }
      len := len + |xs|;
      items := items + xs;
    }

    /** A copy that shares nothing with this list. */
    method Copy() returns (c: Buffer<T>)
      requires Valid()
      ensures c.Valid() && fresh(c.Repr) && c.items == items
    {
      c := new Buffer();
      c.Append(buf[..len]);
    }

    method Read() returns (xs: seq<T>)
      requires Valid()
      ensures xs == items
    {
      xs := buf[..len];
    }
  }
}
