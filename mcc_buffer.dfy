/** The growable buffers of src/proton/mcc/mcc-read.c: `struct linebuffer`
    (lines 77-130), which holds the characters of a line, and
    `struct fpos_vector` (lines 136-201), which holds stream positions. Both
    keep `size` elements in an allocation of `capacity` and double the
    allocation when it is full. */
module MccBuffer {

  class GrowBuffer<T(0)> {
    var buf: array<T>
    var size: nat
    ghost var Repr: set<object>

    ghost predicate Valid()
      reads this, Repr
      ensures Valid() ==> this in Repr
    {
      this in Repr && buf in Repr && size <= buf.Length
    }

    /** The elements stored so far. */
    function Contents(): seq<T>
      reads this, buf
      requires size <= buf.Length
    {
      buf[..size]
    }

    function Capacity(): nat
      reads this
    {
      buf.Length
    }

    /** `new_linebuffer` / `new_fpos_vector`: empty, with room for
        `capacity` elements. */
    constructor (capacity: nat)
      ensures Valid() && fresh(Repr)
      ensures Contents() == [] && Capacity() == capacity
    {
      buf := new T[capacity];
      size := 0;
      Repr := {this, buf};
    }

    /** `double_linebuffer` / `double_fpos_vector`: `realloc` to twice the
        capacity, keeping every element; when the allocation fails nothing
        changes and 1 is returned. */
    method Double(allocOk: bool) returns (err: int)
      requires Valid()
      modifies Repr
      ensures Valid() && fresh(Repr - old(Repr))
      ensures Contents() == old(Contents())
      ensures err == 0 <==> allocOk
      ensures err == 0 || err == 1
      ensures Capacity() == if allocOk then 2 * old(Capacity()) else old(Capacity())
    {
      if !allocOk {
        return 1;
      }
      var grown := new T[2 * buf.Length];
      var i := 0;
      while i < buf.Length
        invariant 0 <= i <= buf.Length && grown.Length == 2 * buf.Length
        invariant grown[..i] == buf[..i]
        modifies grown
      {
        grown[i] := buf[i];
        i := i + 1;
      }
      assert grown[..size] == buf[..size] by {
        assert grown[..buf.Length][..size] == grown[..size];
      }
      buf := grown;
      Repr := Repr + {grown};
      err := 0;
    }

    /** `lb_reset`: the buffer is emptied, its allocation kept. */
    method Reset()
      requires Valid()
      modifies this
      ensures Valid() && Repr == old(Repr)
      ensures Contents() == [] && Capacity() == old(Capacity())
    {
      size := 0;
    }

    /** `lb_push_back` / `fv_push_back`: when full, double first; if that
        fails nothing is appended and 1 is returned, otherwise `x` is
        appended after the unchanged earlier elements. */
    method PushBack(x: T, allocOk: bool) returns (err: int)
      requires Valid() && Capacity() > 0
      modifies Repr
      ensures Valid() && fresh(Repr - old(Repr))
      ensures err == 0 || err == 1
      ensures err == 0 ==> Contents() == old(Contents()) + [x]
      ensures err == 1 ==> Contents() == old(Contents())
      ensures err == 1 <==> !allocOk && |old(Contents())| == old(Capacity())
      ensures Capacity() == if old(size) == old(Capacity()) && allocOk then 2 * old(Capacity()) else old(Capacity())
    {
      if size == buf.Length {
        err := Double(allocOk);
        if err != 0 {
          return;
        }
      }
      buf[size] := x;
      size := size + 1;
      err := 0;
    }

    /** `shrink_fpos_vector`: the allocation is cut to the elements held. */
    method Shrink()
      requires Valid()
      modifies Repr
      ensures Valid() && fresh(Repr - old(Repr))
      ensures Contents() == old(Contents()) && Capacity() == size
    {
      var cut := new T[size];
      var i := 0;
      while i < size
        invariant 0 <= i <= size && cut.Length == size
        invariant cut[..i] == buf[..i]
        modifies cut
      {
        cut[i] := buf[i];
        i := i + 1;
      }
      assert cut[..] == cut[..size];
      buf := cut;
      Repr := Repr + {cut};
    }
  }
}
