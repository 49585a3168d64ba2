/** The fixed-size ring buffer: reading back from the head and reading forward from the tail agree. */
module CircularBuffer {

  /** Position `i` after `start` in a ring of `size` slots, going round at most once. */
  function At(start: nat, i: nat, size: nat): (pos: nat)
    requires start < size && i <= size
    ensures pos < size
  {
    if start + i < size then start + i else start + i - size
  }

  /** The remainder by which the code goes round the ring; below twice the size it is one subtraction. */
  method Remainder(a: nat, size: nat) returns (pos: nat)
    requires 0 < size && a < 2 * size
    ensures pos == if a < size then a else a - size
  {
    pos := a % size;
    if a >= size {
      assert a == size * 1 + (a - size);
    }
  }

  /** What the ring holds after one more item: the oldest one goes when it is full. */
  function Push<T>(items: seq<T>, item: T, capacity: nat): seq<T>
    requires capacity > 0
  {
    if |items| < capacity then items + [item] else items[1..] + [item]
  }

  function LastOf<T>(items: seq<T>, n: nat): (last: seq<T>)
    ensures |last| == if n <= |items| then n else |items|
    ensures items == items[..|items| - |last|] + last
  {
    if n <= |items| then items[|items| - n..] else items
  }

  function Filtered<T>(items: seq<T>, predicate_: T -> bool): seq<T> {
    if items == [] then []
    else
      var last := items[|items| - 1];
      Filtered(items[..|items| - 1], predicate_) + if predicate_(last) then [last] else []
  }

  function Folded<T, A>(items: seq<T>, fn: (A, T) -> A, initial: A): A {
    if items == [] then initial else fn(Folded(items[..|items| - 1], fn, initial), items[|items| - 1])
  }

  /** The places of the items that satisfy the predicate. */
  ghost function Places<T>(items: seq<T>, predicate_: T -> bool): (at: seq<nat>)
    ensures forall i | 0 <= i < |at| :: at[i] < |items|
  {
    if items == [] then []
    else
      var n := |items| - 1;
      Places(items[..n], predicate_) + if predicate_(items[n]) then [n] else []
  }

  /** They are all the places of such items, in order. */
  lemma {:induction false} PlacesExactly<T>(items: seq<T>, predicate_: T -> bool)
    ensures forall k: nat :: k in Places(items, predicate_) <==> k < |items| && predicate_(items[k])
    ensures forall i, j | 0 <= i < j < |Places(items, predicate_)| ::
              Places(items, predicate_)[i] < Places(items, predicate_)[j]
  {
    if items != [] {
      var n := |items| - 1;
      PlacesExactly(items[..n], predicate_);
      var earlier := Places(items[..n], predicate_);
      assert forall i | 0 <= i < |earlier| :: earlier[i] < n;
    }
  }

  /** The items kept are those that satisfy the predicate, each once and in order: the items at those places. */
  lemma {:induction false} FilteredExactly<T>(items: seq<T>, predicate_: T -> bool)
    ensures |Filtered(items, predicate_)| == |Places(items, predicate_)|
    ensures forall i | 0 <= i < |Places(items, predicate_)| ::
              Filtered(items, predicate_)[i] == items[Places(items, predicate_)[i]]
  {
    if items != [] { FilteredExactly(items[..|items| - 1], predicate_); }
  }

  /** Folding goes through the items in order, from the initial value. */
  lemma {:induction false} FoldedExactly<T, A>(items: seq<T>, more: seq<T>, item: T, fn: (A, T) -> A, initial: A)
    ensures Folded([], fn, initial) == initial && Folded([item], fn, initial) == fn(initial, item)
    ensures Folded(items + more, fn, initial) == Folded(more, fn, Folded(items, fn, initial))
    decreases |more|
  {
    if more == [] {
      assert items + more == items;
    } else {
      var n := |more| - 1;
      FoldedExactly(items, more[..n], item, fn, initial);
      assert (items + more)[..|items| + n] == items + more[..n];
    }
  }

  class CircularBuffer<T(0)> {
    var data: array<T>
    const size: nat
    var head: nat
    var tail: nat
    var count: nat

    ghost predicate Valid()
      reads this
    {
      0 < size == data.Length && count <= size && tail < size && head == At(tail, count, size)
    }

    /** The items from oldest to newest. */
    ghost function Contents(): (s: seq<T>)
      reads this, data
      requires Valid()
    {
      seq(count, i requires 0 <= i < count reads this, data requires Valid() => data[At(tail, i, size)])
    }

    constructor (size: nat)
      requires size > 0
      ensures Valid() && fresh(data) && this.size == size && Contents() == []
    {
      data := new T[size];
      this.size := size;
      head, tail, count := 0, 0, 0;
    }

    method Add(item: T)
      requires Valid()
      modifies this, data
      ensures Valid() && data == old(data)
      ensures Contents() == Push(old(Contents()), item, size)
    {
      ghost var before := Contents();
      data[head] := item;
      head := Remainder(head + 1, size);
      if count < size {
        count := count + 1;
        assert Contents() == before + [item];
      } else {
        tail := Remainder(tail + 1, size);
        assert Contents() == before[1..] + [item];
      }
    }

    method Clear()
      requires Valid()
      modifies this
      ensures Valid() && fresh(data) && Contents() == []
    {
      data := new T[size];
      head := 0;
      tail := 0;
      count := 0;
    }

    /** The n newest items in order, copied from the position n before the head. */
    method GetRecent(n: nat) returns (result: array<T>)
      requires Valid()
      ensures fresh(result) && result[..] == LastOf(Contents(), n)
    {
      var m := if n > count then count else n;
      var start := Remainder(head - m + size, size);
      result := CopyFrom(start, m);
      assert LastOf(Contents(), n) == Contents()[count - m..];
    }

    /** Copies the newest `m` items, starting from their position in the ring. */
    method CopyFrom(start: nat, m: nat) returns (result: array<T>)
      requires Valid() && m <= count && start == At(tail, count - m, size)
      ensures fresh(result) && result[..] == Contents()[count - m..]
    {
      ghost var items := Contents();
      result := new T[m];
      var idx := 0;
      for i := 0 to m
        invariant idx == i
        invariant forall k | 0 <= k < i :: result[k] == items[count - m + k]
      {
        var pos := Remainder(start + i, size);
        assert pos == At(tail, count - m + i, size);
        result[idx] := data[pos];
        idx := idx + 1;
      }
    }

    method GetAll() returns (result: array<T>)
      requires Valid()
      ensures fresh(result) && result[..] == Contents()
    {
      result := GetRecent(size);
      assert LastOf(Contents(), size) == Contents();
    }

    /** Calls `fn` on the items from oldest to newest, until it answers false or they run out. */
    method ForEach(fn: T -> bool) returns (visited: seq<T>)
      requires Valid()
      ensures visited <= Contents()
      ensures forall i | 0 <= i < |visited| - 1 :: fn(visited[i])
      ensures |visited| < |Contents()| ==> visited != [] && !fn(visited[|visited| - 1])
    {
      visited := [];
      for i := 0 to count
        invariant |visited| == i
        invariant forall k | 0 <= k < i :: visited[k] == Contents()[k] && fn(visited[k])
      {
        var pos := Remainder(tail + i, size);
        visited := visited + [data[pos]];
        if !fn(data[pos]) {
          return;
        }
      }
    }

    method Filter(predicate_: T -> bool) returns (result: seq<T>)
      requires Valid()
      ensures result == Filtered(Contents(), predicate_)
    {
      result := [];
      for i := 0 to count
        invariant result == Filtered(Contents()[..i], predicate_)
      {
        var pos := Remainder(tail + i, size);
        assert Contents()[..i + 1][..i] == Contents()[..i] && Contents()[i] == data[pos];
        if predicate_(data[pos]) {
          result := result + [data[pos]];
        }
      }
      assert Contents()[..count] == Contents();
    }

    method Map<U(0)>(fn: T -> U) returns (result: array<U>)
      requires Valid()
      ensures fresh(result) && result.Length == |Contents()|
      ensures forall i | 0 <= i < |Contents()| :: result[i] == fn(Contents()[i])
    {
      result := new U[count];
      for i := 0 to count
        invariant forall k | 0 <= k < i :: result[k] == fn(Contents()[k])
      {
        var pos := Remainder(tail + i, size);
        result[i] := fn(data[pos]);
      }
    }

    method Reduce<A>(fn: (A, T) -> A, initial: A) returns (result: A)
      requires Valid()
      ensures result == Folded(Contents(), fn, initial)
    {
      result := initial;
      for i := 0 to count
        invariant result == Folded(Contents()[..i], fn, initial)
      {
        var pos := Remainder(tail + i, size);
        assert Contents()[..i + 1][..i] == Contents()[..i] && Contents()[i] == data[pos];
        result := fn(result, data[pos]);
      }
      assert Contents()[..count] == Contents();
    }

    /** Every run of `windowSize` consecutive items, oldest first; nothing when there are too few items. */
    method Window(windowSize: nat) returns (windows: seq<seq<T>>)
      requires Valid()
      ensures windowSize > |Contents()| ==> windows == []
      ensures windowSize <= |Contents()| ==> |windows| == |Contents()| - windowSize + 1
      ensures forall i | 0 <= i < |windows| :: windows[i] == Contents()[i..i + windowSize]
    {
      windows := [];
      if windowSize > count {
        return;
      }
      var numWindows := count - windowSize + 1;
      for i := 0 to numWindows
        invariant |windows| == i
        invariant forall k | 0 <= k < i :: windows[k] == Contents()[k..k + windowSize]
      {
        var start := Remainder(tail + i, size);
        var window := CopyWindow(start, i, windowSize);
        windows := windows + [window];
      }
    }

    /** The window that starts `i` items after the oldest, at position `start` of the ring. */
    method CopyWindow(start: nat, i: nat, windowSize: nat) returns (window: seq<T>)
      requires Valid() && i + windowSize <= count && start == At(tail, i, size)
      ensures window == Contents()[i..i + windowSize]
    {
      ghost var items := Contents();
      window := [];
      for j := 0 to windowSize
        invariant |window| == j
        invariant forall k | 0 <= k < j :: window[k] == items[i + k]
      {
        var pos := Remainder(start + j, size);
        assert pos == At(tail, i + j, size);
        window := window + [data[pos]];
      }
    }
  }

  // ----- Whole runs -----

  datatype Op<T> = Add(item: T) | Clear

  function AfterOps<T>(ops: seq<Op<T>>, capacity: nat): seq<T>
    requires capacity > 0
  {
    if ops == [] then []
    else
      match ops[|ops| - 1]
      case Add(item) => Push(AfterOps(ops[..|ops| - 1], capacity), item, capacity)
      case Clear => []
  }

  function AddedSinceClear<T>(ops: seq<Op<T>>): seq<T> {
    if ops == [] then []
    else
      match ops[|ops| - 1]
      case Add(item) => AddedSinceClear(ops[..|ops| - 1]) + [item]
      case Clear => []
  }

  /** After any run the ring holds the last items added since it was cleared, as many as fit. */
  lemma {:induction false} HoldsTheLatest<T>(ops: seq<Op<T>>, capacity: nat)
    requires capacity > 0
    ensures AfterOps(ops, capacity) == LastOf(AddedSinceClear(ops), capacity)
  {
    if ops != [] { HoldsTheLatest(ops[..|ops| - 1], capacity); }
  }

  method RunOps<T(0)>(buffer: CircularBuffer<T>, ops: seq<Op<T>>)
    requires buffer.Valid() && buffer.Contents() == []
    modifies buffer, buffer.data
    ensures buffer.Valid()
    ensures buffer.Contents() == LastOf(AddedSinceClear(ops), buffer.size)
  {
    for i := 0 to |ops|
      invariant buffer.Valid() && (buffer.data == old(buffer.data) || fresh(buffer.data))
      invariant buffer.Contents() == AfterOps(ops[..i], buffer.size)
    {
      assert ops[..i + 1][..i] == ops[..i];
      match ops[i]
      case Add(item) => buffer.Add(item);
      case Clear => buffer.Clear();
    }
    assert ops[..|ops|] == ops;
    HoldsTheLatest(ops, buffer.size);
  }
}
