/**
 * The growable message buffer `struct data_vector` of 1/corobus.c: an
 * array of unsigned 32-bit values of which the first `size` are in use.
 * Values are appended at the tail and popped from the head.
 */
module DataVectors {

  /** An `unsigned` message. */
  newtype Msg = x: int | 0 <= x < 0x1_0000_0000

  /**
   * The capacity after appending `count` values to a vector holding `size`
   * values in `capacity` slots: unchanged when they fit, otherwise 4 from
   * empty storage or double the old one, raised to exactly what is needed
   * when doubling is not enough.
   */
  function GrownCapacity(capacity: nat, size: nat, count: nat): (r: nat)
    ensures size + count <= r
    ensures size + count <= capacity ==> r == capacity
    ensures size + count > capacity ==> r >= 2 * capacity && r >= 4 * (1 - capacity)
    ensures size + count > capacity ==>
              r == size + count || r == (if capacity == 0 then 4 else 2 * capacity)
  {
    if size + count <= capacity then capacity
    else
      var doubled := if capacity == 0 then 4 else capacity * 2;
      if doubled < size + count then size + count else doubled
  }

  class DataVector {
    var data: array<Msg>
    var size: nat
    var capacity: nat

    ghost predicate Valid()
      reads this
    {
      size <= capacity == data.Length
    }

    /** The pending messages, oldest first. */
    ghost function Contents(): seq<Msg>
      reads this, data
      requires Valid()
    {
      data[..size]
    }

    /** A vector with no storage, as a channel starts out. */
    constructor ()
      ensures Valid() && fresh(data)
      ensures Contents() == [] && capacity == 0
    {
      data := new Msg[0];
      size := 0;
      capacity := 0;
    }

    /** The realloc of data_vector_append_many: larger storage, same contents. */
    method Reserve(newCapacity: nat)
      requires Valid() && size <= newCapacity
      modifies this
      ensures Valid() && fresh(data)
      ensures size == old(size) && capacity == newCapacity
      ensures Contents() == old(Contents())
    {
      var storage := new Msg[newCapacity];
      var i := 0;
      while i < size
        modifies storage
        invariant 0 <= i <= size
        invariant forall k :: 0 <= k < i ==> storage[k] == data[k]
      {
        storage[i] := data[i];
        i := i + 1;
      }
      assert storage[..size] == data[..size];
      data := storage;
      capacity := newCapacity;
    }

    /** data_vector_append_many: the values go to the tail, in order. */
    method AppendMany(values: seq<Msg>)
      requires Valid()
      modifies this, data
      ensures Valid()
      ensures Contents() == old(Contents()) + values
      ensures size == old(size) + |values|
      ensures capacity == GrownCapacity(old(capacity), old(size), |values|)
      ensures old(size) + |values| <= old(capacity) ==> data == old(data)
      ensures old(size) + |values| > old(capacity) ==> fresh(data)
    {
      if size + |values| > capacity {
        var newCapacity := if capacity == 0 then 4 else capacity * 2;
        if newCapacity < size + |values| {
          newCapacity := size + |values|;
        }
        Reserve(newCapacity);
      }
      CopyToTail(values);
    }

    /** The memcpy of data_vector_append_many: the values land after the first `size` slots, which keep theirs. */
    method CopyToTail(values: seq<Msg>)
      requires Valid() && size + |values| <= capacity
      modifies this, data
      ensures Valid() && data == old(data) && capacity == old(capacity)
      ensures size == old(size) + |values|
      ensures Contents() == old(Contents()) + values
    {
      ghost var before := Contents();
      var j := 0;
      while j < |values|
        modifies data
        invariant 0 <= j <= |values|
        invariant forall k :: 0 <= k < size ==> data[k] == before[k]
        invariant forall k :: 0 <= k < j ==> data[size + k] == values[k]
      {
        data[size + j] := values[j];
        j := j + 1;
      }
      size := size + |values|;
      assert Contents() == before + values by {
        forall k | 0 <= k < size ensures Contents()[k] == (before + values)[k] {
          if k >= |before| {
            assert data[|before| + (k - |before|)] == values[k - |before|];
          }
        }
      }
    }

    /** data_vector_append: one value to the tail. */
    method Append(x: Msg)
      requires Valid()
      modifies this, data
      ensures Valid()
      ensures Contents() == old(Contents()) + [x]
      ensures capacity == GrownCapacity(old(capacity), old(size), 1)
    {
      AppendMany([x]);
    }

    /**
     * data_vector_pop_first_many: the first `count` values come out in order
     * and the rest move to the front. Asking for more than is held is a
     * programming error in the source (an assert), hence the precondition.
     */
    method PopFirstMany(count: nat) returns (out: seq<Msg>)
      requires Valid() && count <= size
      modifies this, data
      ensures Valid() && data == old(data) && capacity == old(capacity)
      ensures out == old(Contents())[..count]
      ensures Contents() == old(Contents())[count..]
    {
      ghost var before := Contents();
      out := data[..count];
      size := size - count;
      // memmove of the remainder to the front
      var i := 0;
      while i < size
        modifies data
        invariant 0 <= i <= size
        invariant forall k :: 0 <= k < i ==> data[k] == before[k + count]
        invariant forall k :: i + count <= k < size + count ==> data[k] == before[k]
      {
        data[i] := data[i + count];
        i := i + 1;
      }
      assert data[..size] == before[count..] by {
        forall k | 0 <= k < size ensures data[..size][k] == before[count..][k] {
        }
      }
    }

    /** data_vector_pop_first: the oldest value. */
    method PopFirst() returns (x: Msg)
      requires Valid() && size > 0
      modifies this, data
      ensures Valid() && capacity == old(capacity)
      ensures x == old(Contents())[0]
      ensures Contents() == old(Contents())[1..]
    {
      var out := PopFirstMany(1);
      x := out[0];
    }
  }

  /**
   * Appending and then popping as many values as were appended, from an
   * empty vector, gives the values back in the order they went in.
   */
  method FifoRoundTrip(values: seq<Msg>) returns (out: seq<Msg>)
    ensures out == values
  {
    var v := new DataVector();
    v.AppendMany(values);
    out := v.PopFirstMany(|values|);
  }
}
