/** The small-buffer vector (VarSizeArray.h): slots of raw storage whose objects are constructed and
    destroyed one by one, an inline buffer, and heap buffers that are allocated, stolen and freed. */
module VarSizeArray {

  /** A slot of storage: no object, an object, or an object whose value was moved away. */
  datatype Slot<+T> = Raw | Object(v: T) | MovedFrom

  /** What an element is constructed from: a value, or a reference (lvalue or rvalue) to a slot of a
      buffer, which is read only when the constructor runs. */
  datatype Arg<T> = Temp(v: T) | Copy(buf: array<Slot<T>>, index: nat) | Move(buf: array<Slot<T>>, index: nat)

  /** Exactly the first n slots hold an object. */
  predicate Constructed<T>(s: seq<Slot<T>>, n: nat) {
    n <= |s| && forall k | 0 <= k < |s| :: s[k].Raw? <==> k >= n
  }

  predicate AllRaw<T>(s: seq<Slot<T>>) { forall k | 0 <= k < |s| :: s[k].Raw? }

  function Repeat<T>(x: T, n: nat): (r: seq<T>)
    ensures |r| == n && forall k | 0 <= k < n :: r[k] == x
  {
    seq(n, _ => x)
  }

  function Max(a: nat, b: nat): nat { if a < b then b else a }

  const MIN_HEAP_CAPACITY: nat := 4

  /** `computeNewCapacity`. */
  function NewCapacity(capacity: nat, min: nat): (c: nat)
    ensures c >= min && c >= 2 * capacity && c >= 4
    ensures c == min || c == 2 * capacity || c == 4
  {
    Max(Max(capacity * 2, min), MIN_HEAP_CAPACITY)
  }

  /** How many elements n push_backs relocate. */
  function PushCost(capacity: nat, size: nat, n: nat): nat
    requires size <= capacity
    decreases n
  {
    if n == 0 then 0
    else if size == capacity then size + PushCost(NewCapacity(capacity, size + 1), size + 1, n - 1)
    else PushCost(capacity, size + 1, n - 1)
  }

  /** Whatever the inline capacity, n push_backs from empty relocate at most 2n elements. */
  lemma PushesAreAmortised(capacity: nat, n: nat)
    ensures PushCost(capacity, 0, n) <= 2 * n
  {
    CreditCovers(0, capacity, 0, n);
  }

  lemma {:induction false} CreditCovers(spent: nat, capacity: nat, size: nat, n: nat)
    requires size <= capacity && spent <= capacity && spent <= 2 * size
    ensures spent + PushCost(capacity, size, n) <= 2 * (size + n)
    decreases n
  {
    if n > 0 {
      if size == capacity {
        CreditCovers(spent + size, NewCapacity(capacity, size + 1), size + 1, n - 1);
      } else {
        CreditCovers(spent, capacity, size + 1, n - 1);
      }
    }
  }

  // ----- what the operations do to the sequence of elements -----

  /** The value an argument stands for when the elements are s. */
  function ValueOf<T>(s: seq<Slot<T>>, arg: Arg<T>): Slot<T>
    requires !arg.Temp? ==> arg.index < |s|
  {
    if arg.Temp? then Object(arg.v) else s[arg.index]
  }

  /** The elements once the argument has been read. */
  function Taken<T>(s: seq<Slot<T>>, arg: Arg<T>): (r: seq<Slot<T>>)
    requires !arg.Temp? ==> arg.index < |s|
    ensures |r| == |s|
  {
    if arg.Move? then s[arg.index := MovedFrom] else s
  }

  function Pushed<T>(s: seq<Slot<T>>, arg: Arg<T>): (r: seq<Slot<T>>)
    requires !arg.Temp? ==> arg.index < |s|
    ensures |r| == |s| + 1
  {
    Taken(s, arg) + [ValueOf(s, arg)]
  }

  function Objects<T>(xs: seq<T>): (r: seq<Slot<T>>)
    ensures |r| == |xs| && forall k | 0 <= k < |r| :: r[k] == Object(xs[k])
  {
    seq(|xs|, k requires 0 <= k < |xs| => Object(xs[k]))
  }

  // ----- the allocator -----

  /** The heap, shared by all arrays: which buffers are live, and which array owns each buffer, inline
      ones included. */
  class Heap<T> {
    ghost var live: set<array<Slot<T>>>
    ghost var owner: map<array<Slot<T>>, VarSizeArrayBase<T>>

    /** No leak: every live buffer is the current buffer of the array that owns it, and an array owns
        nothing but its inline and its current buffer. */
    ghost predicate Valid()
      reads this, owner.Values`begin
    {
      && (forall b :: b in live ==> b in owner && owner[b].begin == b)
      && (forall b :: b in owner ==> b == owner[b].begin || b == owner[b].inlineBegin)
    }

    /** The buffers of every array but those in `some` are as they were. */
    twostate predicate OthersKept(new some: set<VarSizeArrayBase<T>>)
      reads this
    {
      && (forall b :: b in old(owner) && old(owner[b]) !in some ==>
            b in owner && owner[b] == old(owner[b]) && (b in live <==> b in old(live)))
      && (forall b :: b in owner && owner[b] !in some ==> b in old(owner) && old(owner[b]) == owner[b])
    }

    constructor ()
      ensures Valid() && live == {} && owner == map[]
    {
      live, owner := {}, map[];
    }

    method Allocate(n: nat, ghost holder: VarSizeArrayBase<T>) returns (b: array<Slot<T>>)
      modifies this
      ensures fresh(b) && b.Length == n && AllRaw(b[..])
      ensures live == old(live) + {b} && owner == old(owner)[b := holder]
    {
      b := new Slot<T>[n](_ => Raw);
      live, owner := live + {b}, owner[b := holder];
    }

    /** Only a live buffer can be freed, and only once its objects are gone. */
    method Deallocate(b: array<Slot<T>>)
      requires b in live && AllRaw(b[..])
      modifies this
      ensures live == old(live) - {b} && owner == old(owner) - {b}
    {
      live, owner := live - {b}, owner - {b};
    }
  }

  method Construct<T>(b: array<Slot<T>>, k: nat, x: Slot<T>)
    requires k < b.Length && b[k].Raw? && !x.Raw?
    modifies b
    ensures b[..] == old(b[..])[k := x]
  {
    b[k] := x;
  }

  method Destroy<T>(b: array<Slot<T>>, k: nat)
    requires k < b.Length && !b[k].Raw?
    modifies b
    ensures b[..] == old(b[..])[k := Raw]
  {
    b[k] := Raw;
  }

  /** Reads an argument; the slot it refers to must still hold its object. */
  method Read<T>(arg: Arg<T>) returns (x: Slot<T>)
    requires !arg.Temp? ==> arg.index < arg.buf.Length && !arg.buf[arg.index].Raw?
    modifies if arg.Move? then {arg.buf} else {}
    ensures arg.Temp? ==> x == Object(arg.v)
    ensures !arg.Temp? ==> x == old(arg.buf[arg.index])
    ensures arg.Move? ==> arg.buf[..] == old(arg.buf[..])[arg.index := MovedFrom]
  {
    match arg
    case Temp(v) => x := Object(v);
    case Copy(buf, index) => x := buf[index];
    case Move(buf, index) => x := buf[index]; buf[index] := MovedFrom;
  }

  method Overwrite<T>(b: array<Slot<T>>, at: nat, xs: seq<Slot<T>>)
    requires at + |xs| <= b.Length
    modifies b
    ensures b[..] == old(b[..at]) + xs + old(b[at + |xs|..])
  {
    for i := 0 to |xs|
      invariant forall k | 0 <= k < b.Length :: b[k] == if at <= k < at + i then xs[k - at] else old(b[k])
    {
      b[at + i] := xs[i];
    }
  }

  /** Moves the objects of [to, end) down to `from`, one at a time. What is left behind, up to `end`,
      still holds objects. */
  method ShiftDown<T>(b: array<Slot<T>>, from: nat, to: nat, end: nat)
    requires from < to <= end <= b.Length && forall k | from <= k < end :: !b[k].Raw?
    modifies b
    ensures b[..from] == old(b[..from]) && b[from..from + (end - to)] == old(b[to..end]) && b[end..] == old(b[end..])
    ensures forall k | from <= k < end :: !b[k].Raw?
  {
    for i := 0 to end - to
      invariant forall k | 0 <= k < b.Length :: k < from || to + i <= k ==> b[k] == old(b[k])
      invariant forall k | to <= k < to + i :: b[k - (to - from)] == old(b[k])
      invariant forall k | from <= k < end :: !b[k].Raw?
    {
      var x := Read(Move(b, to + i));
      b[from + i] := x;
    }
  }

  /** Moves the objects of src[from..to] into the raw slots dst[from..to]. */
  method MoveConstruct<T>(dst: array<Slot<T>>, src: array<Slot<T>>, from: nat, to: nat)
    requires dst != src && from <= to <= src.Length && to <= dst.Length
    requires forall k | from <= k < to :: dst[k].Raw? && !src[k].Raw?
    modifies dst, src
    ensures forall k | 0 <= k < dst.Length :: dst[k] == if from <= k < to then old(src[k]) else old(dst[k])
    ensures forall k | 0 <= k < src.Length :: src[k] == if from <= k < to then MovedFrom else old(src[k])
  {
    for i := from to to
      invariant forall k | 0 <= k < dst.Length :: dst[k] == if from <= k < i then old(src[k]) else old(dst[k])
      invariant forall k | 0 <= k < src.Length :: src[k] == if from <= k < i then MovedFrom else old(src[k])
    {
      var x := Read(Move(src, i));
      Construct(dst, i, x);
    }
  }

  method SwapShared<T>(a: array<Slot<T>>, b: array<Slot<T>>, n: nat)
    requires a != b && n <= a.Length && n <= b.Length
    modifies a, b
    ensures a[..] == old(b[..n] + a[n..]) && b[..] == old(a[..n] + b[n..])
  {
    for i := 0 to n
      invariant forall k | 0 <= k < a.Length :: a[k] == if k < i then old(b[k]) else old(a[k])
      invariant forall k | 0 <= k < b.Length :: b[k] == if k < i then old(a[k]) else old(b[k])
    {
      a[i], b[i] := b[i], a[i];
    }
    assert a[..n] == old(b[..n]) && a[n..] == old(a[n..]);
    assert b[..n] == old(a[..n]) && b[n..] == old(b[n..]);
  }

  /** Replacing the first objects of a buffer by other objects. */
  lemma HeadReplaced<T>(head: seq<Slot<T>>, s: seq<Slot<T>>, size: nat)
    requires |head| <= size && Constructed(s, size) && forall k | 0 <= k < |head| :: !head[k].Raw?
    ensures var t := head + s[|head|..]; Constructed(t, size) && t[..size] == head + s[..size][|head|..]
  {
  }

  /** Turning the objects from `first` on. */
  lemma Turned<T>(s: seq<Slot<T>>, size: nat, first: nat, middle: nat)
    requires first <= middle <= size && Constructed(s, size)
    ensures var t := s[..first] + (s[middle..size] + s[first..middle]) + s[size..];
            && Constructed(t, size)
            && t[..size] == s[..size][..first] + s[..size][middle..] + s[..size][first..middle]
  {
    var turned := s[middle..size] + s[first..middle];
    assert forall k | 0 <= k < |turned| :: !turned[k].Raw?;
    var head := s[..first] + turned;
    HeadReplaced(head, s, size);
    assert |head| == size && s[..size][|head|..] == [];
    assert head == s[..size][..first] + s[..size][middle..] + s[..size][first..middle];
  }

  // ----- the array -----

  class VarSizeArrayBase<T> {
    const heap: Heap<T>
    const inlineBegin: array<Slot<T>>
    var begin: array<Slot<T>>
    var size: nat
    var capacity: nat
    ghost var moves: nat

    ghost predicate Owns(b: array<Slot<T>>)
      reads heap
    {
      b in heap.owner && heap.owner[b] == this
    }

    /** The buffer is the inline one or a live heap buffer, this array owns it, and exactly its slots
        [0, size) hold objects. The inline buffer is never on the heap. */
    ghost predicate Valid()
      reads this, heap, begin, inlineBegin
    {
      && capacity == begin.Length
      && Owns(inlineBegin) && inlineBegin !in heap.live
      && Owns(begin) && (begin != inlineBegin ==> begin in heap.live && AllRaw(inlineBegin[..]))
      && Constructed(begin[..], size)
    }

    ghost function Contents(): (s: seq<Slot<T>>)
      requires Valid()
      reads this, heap, begin, inlineBegin
    {
      begin[..size]
    }

    /** A reference argument refers to an element of this array. */
    ghost predicate Accepts(arg: Arg<T>)
      reads this
    {
      !arg.Temp? ==> arg.buf == begin && arg.index < size
    }

    /** The state an operation leaves behind. */
    twostate predicate Kept()
      reads this, heap, begin, inlineBegin, heap.owner.Values`begin
    {
      Valid() && heap.Valid() && heap.OthersKept({this}) && (begin == old(begin) || begin == inlineBegin || fresh(begin))
    }

    /** An array with its inline buffer adopted. */
    constructor (heap: Heap<T>, inlineCapacity: nat)
      requires heap.Valid()
      modifies heap
      ensures this.heap == heap && fresh(inlineBegin) && fresh(begin) && inlineBegin.Length == inlineCapacity
      ensures Valid() && heap.Valid() && heap.OthersKept({this}) && heap.live == old(heap.live)
      ensures Contents() == [] && moves == 0
    {
      var b := new Slot<T>[inlineCapacity](_ => Raw);
      this.heap := heap;
      inlineBegin, begin := b, b;
      size, capacity, moves := 0, inlineCapacity, 0;
      new;
      heap.owner := heap.owner[b := this];
    }

    predicate IsInline()
      reads this
    {
      begin == inlineBegin
    }

    method DestroyRange(from: nat, to: nat)
      requires from <= to <= begin.Length && forall k | from <= k < to :: !begin[k].Raw?
      modifies begin
      ensures forall k | 0 <= k < begin.Length :: begin[k] == if from <= k < to then Raw else old(begin[k])
    {
      for i := from to to
        invariant forall k | 0 <= k < begin.Length :: begin[k] == if from <= k < i then Raw else old(begin[k])
      {
        Destroy(begin, i);
      }
    }

    /** Moves [0, size) into dst and destroys the originals. */
    method RelocateTo(dst: array<Slot<T>>)
      requires dst != begin && size <= dst.Length && Constructed(begin[..], size)
      requires forall k | 0 <= k < size :: dst[k].Raw?
      modifies begin, dst, `moves
      ensures AllRaw(begin[..]) && dst[..] == old(begin[..size] + dst[size..])
      ensures moves == old(moves) + size
    {
      for i := 0 to size
        invariant forall k | 0 <= k < begin.Length :: begin[k] == if k < i then Raw else old(begin[k])
        invariant forall k | 0 <= k < dst.Length :: dst[k] == if k < i then old(begin[k]) else old(dst[k])
        invariant moves == old(moves) + i
      {
        var x := Read(Move(begin, i));
        Construct(dst, i, x);
        Destroy(begin, i);
        moves := moves + 1;
      }
    }

    /** Frees the old heap buffer, if there is one, and takes the new buffer over. */
    method Adopt(buffer: array<Slot<T>>, newCapacity: nat)
      requires Owns(inlineBegin) && inlineBegin !in heap.live && AllRaw(inlineBegin[..])
      requires Owns(begin) && (begin != inlineBegin ==> begin in heap.live) && AllRaw(begin[..])
      requires Owns(buffer) && buffer in heap.live && buffer != begin && buffer.Length == newCapacity
      modifies this`begin, this`capacity, heap
      ensures begin == buffer && capacity == newCapacity
      ensures heap.live == old(heap.live) - (if old(begin) == inlineBegin then {} else {old(begin)})
      ensures heap.owner == old(heap.owner) - (if old(begin) == inlineBegin then {} else {old(begin)})
    {
      if !IsInline() {
        heap.Deallocate(begin);
      }
      begin := buffer;
      capacity := newCapacity;
    }

    /** Replacing the current buffer by a fresh one of its own leaves the heap in order. */
    twostate lemma AfterGrowth()
      requires old(Valid()) && old(heap.Valid()) && fresh(begin)
      requires heap.live == old(heap.live) + {begin} - (if old(begin) == inlineBegin then {} else {old(begin)})
      requires heap.owner == old(heap.owner)[begin := this] - (if old(begin) == inlineBegin then {} else {old(begin)})
      requires forall c :: c in old(heap.owner).Values && c != this ==> c.begin == old(c.begin)
      ensures heap.Valid() && heap.OthersKept({this}) && Owns(begin) && Owns(inlineBegin) && begin in heap.live && inlineBegin !in heap.live
    {
    }

    /** `grow`. */
    method Grow(minCapacity: nat)
      requires Valid() && heap.Valid() && minCapacity > capacity
      modifies this, begin, inlineBegin, heap
      ensures Kept() && fresh(begin)
      ensures Contents() == old(Contents()) && capacity == NewCapacity(old(capacity), minCapacity)
      ensures moves == old(moves) + size
    {
      hide Heap.Valid, Heap.OthersKept;
      var newCapacity := NewCapacity(capacity, minCapacity);
      var newBuffer := heap.Allocate(newCapacity, this);
      RelocateTo(newBuffer);
      assert newBuffer[..size] == old(Contents()) && Constructed(newBuffer[..], size);
      Adopt(newBuffer, newCapacity);
      AfterGrowth();
    }

    /** `reserve`. */
    method Reserve(n: nat)
      requires Valid() && heap.Valid()
      modifies this, begin, inlineBegin, heap
      ensures Kept() && Contents() == old(Contents()) && size == old(size) && capacity >= n
      ensures n <= old(capacity) ==> begin == old(begin) && moves == old(moves) && heap.live == old(heap.live)
      ensures n > old(capacity) ==> capacity == NewCapacity(old(capacity), n) && moves == old(moves) + size
    {
      if n > capacity {
        Grow(n);
      }
    }

    /** Reads an argument that may refer to an element of this array. */
    method ReadArg(arg: Arg<T>) returns (x: Slot<T>)
      requires Valid() && Accepts(arg)
      modifies if arg.Move? then {begin} else {}
      ensures Valid() && Contents() == Taken(old(Contents()), arg) && x == ValueOf(old(Contents()), arg) && !x.Raw?
    {
      x := Read(arg);
    }

    /** The new element is constructed behind the place of the others, before these are moved over. */
    method ConstructAndRelocate(dst: array<Slot<T>>, arg: Arg<T>)
      requires Valid() && Accepts(arg) && dst != begin && size < dst.Length && AllRaw(dst[..])
      modifies begin, dst, `moves
      ensures AllRaw(begin[..]) && Constructed(dst[..], size + 1) && dst[..size + 1] == Pushed(old(Contents()), arg)
      ensures moves == old(moves) + size
    {
      hide Taken, ValueOf;
      var x := ReadArg(arg);
      ghost var read := begin[..size];
      Construct(dst, size, x);
      assert dst[size..][0] == x;
      RelocateTo(dst);
      assert dst[..size + 1] == read + [x];
    }

    /** `growAndEmplaceBack`: the new element is constructed while the old buffer is still alive. */
    method GrowAndEmplaceBack(arg: Arg<T>)
      requires Valid() && heap.Valid() && Accepts(arg) && size == capacity
      modifies this, begin, inlineBegin, heap
      ensures Kept() && fresh(begin)
      ensures Contents() == Pushed(old(Contents()), arg) && capacity == NewCapacity(old(capacity), old(size) + 1)
      ensures moves == old(moves) + old(size)
    {
      hide Heap.Valid, Heap.OthersKept, Pushed;
      var newCapacity := NewCapacity(capacity, size + 1);
      var newBuffer := heap.Allocate(newCapacity, this);
      ConstructAndRelocate(newBuffer, arg);
      Adopt(newBuffer, newCapacity);
      size := size + 1;
      AfterGrowth();
    }

    /** `emplace_back`, and `push_back` through it. */
    method EmplaceBack(arg: Arg<T>)
      requires Valid() && heap.Valid() && Accepts(arg)
      modifies this, begin, inlineBegin, heap
      ensures Kept() && Contents() == Pushed(old(Contents()), arg)
      ensures moves == old(moves) + if old(size) == old(capacity) then old(size) else 0
      ensures capacity == if old(size) == old(capacity) then NewCapacity(old(capacity), old(size) + 1) else old(capacity)
    {
      hide Heap.Valid;
      if size == capacity {
        GrowAndEmplaceBack(arg);
      } else {
        var x := ReadArg(arg);
        Construct(begin, size, x);
        size := size + 1;
      }
    }

    /** `append`, from outside the array. */
    method Append(xs: seq<T>)
      requires Valid() && heap.Valid()
      modifies this, begin, inlineBegin, heap
      ensures Kept() && Contents() == old(Contents()) + Objects(xs)
      ensures moves == old(moves) + PushCost(old(capacity), old(size), |xs|)
    {
      hide Heap.Valid;
      for i := 0 to |xs|
        invariant Kept() && Contents() == old(Contents()) + Objects(xs[..i])
        invariant moves + PushCost(capacity, size, |xs| - i) == old(moves) + PushCost(old(capacity), old(size), |xs|)
      {
        EmplaceBack(Temp(xs[i]));
      }
      assert xs[..|xs|] == xs;
    }

    /** `std::rotate` of [first, size) with `middle` coming first. */
    method Rotate(first: nat, middle: nat)
      requires Valid() && first <= middle <= size
      modifies begin
      ensures Valid()
      ensures Contents() == old(Contents()[..first] + Contents()[middle..] + Contents()[first..middle])
    {
      Turned(begin[..], size, first, middle);
      var turned := begin[middle..size] + begin[first..middle];
      Overwrite(begin, first, turned);
    }

    /** `insert` of one element, which may live inside the array. */
    method Insert(index: nat, arg: Arg<T>)
      requires Valid() && heap.Valid() && Accepts(arg) && index <= size
      modifies this, begin, inlineBegin, heap
      ensures Kept()
      ensures Contents() == (var s := Taken(old(Contents()), arg); s[..index] + [ValueOf(old(Contents()), arg)] + s[index..])
    {
      hide Heap.Valid, Heap.OthersKept;
      EmplaceBack(arg);
      Rotate(index, size - 1);
    }

    /** Constructs copies of x up to size n. */
    method FillTo(n: nat, x: Slot<T>)
      requires Valid() && size <= n <= capacity && !x.Raw?
      modifies this`size, begin
      ensures Valid() && Contents() == old(Contents()) + Repeat(x, n - old(size))
    {
      while size < n
        invariant Valid() && old(size) <= size <= n && Contents() == old(Contents()) + Repeat(x, size - old(size))
      {
        Construct(begin, size, x);
        size := size + 1;
      }
    }

    /** Room for `count` more elements, and that many copies of x. */
    method AppendCount(count: nat, x: Slot<T>)
      requires Valid() && heap.Valid() && !x.Raw?
      modifies this, begin, inlineBegin, heap
      ensures Kept() && Contents() == old(Contents()) + Repeat(x, count)
    {
      hide Heap.Valid, Repeat;
      Reserve(size + count);
      FillTo(size + count, x);
    }

    /** `insert` of count copies of a value that may live inside the array: it is copied out first. */
    method InsertCount(index: nat, count: nat, arg: Arg<T>)
      requires Valid() && heap.Valid() && Accepts(arg) && !arg.Move? && index <= size
      modifies this, begin, inlineBegin, heap
      ensures Kept()
      ensures Contents() == (var s := old(Contents()); s[..index] + Repeat(ValueOf(s, arg), count) + s[index..])
    {
      hide Heap.Valid, Repeat;
      if count == 0 {
        return;
      }
      var copy := ReadArg(arg);
      AppendCount(count, copy);
      Rotate(index, size - count);
    }

    /** `insert` of a range from outside the array. */
    method InsertRange(index: nat, xs: seq<T>)
      requires Valid() && heap.Valid() && index <= size
      modifies this, begin, inlineBegin, heap
      ensures Kept() && Contents() == (var s := old(Contents()); s[..index] + Objects(xs) + s[index..])
    {
      hide Heap.Valid, Heap.OthersKept;
      var oldSize := size;
      Append(xs);
      Rotate(index, oldSize);
    }

    /** `pop_back`. */
    method PopBack()
      requires Valid() && size > 0
      modifies this`size, begin
      ensures Valid() && Contents() == old(Contents()[..size - 1])
    {
      size := size - 1;
      Destroy(begin, size);
    }

    /** `std::move` of [to, size) down to `from`. */
    method MoveDown(from: nat, to: nat)
      requires Valid() && from < to <= size
      modifies begin
      ensures Valid() && Contents()[..from + (size - to)] == old(Contents()[..from] + Contents()[to..])
    {
      ShiftDown(begin, from, to, size);
    }

    /** `erase` of one element. */
    method Erase(index: nat)
      requires Valid() && index < size
      modifies this`size, begin
      ensures Valid() && Contents() == old(Contents()[..index] + Contents()[index + 1..])
    {
      MoveDown(index, index + 1);
      PopBack();
    }

    /** `erase` of [from, to). */
    method EraseRange(from: nat, to: nat)
      requires Valid() && from <= to <= size
      modifies this`size, begin
      ensures Valid() && Contents() == old(Contents()[..from] + Contents()[to..])
    {
      if from == to {
        return;
      }
      MoveDown(from, to);
      var removed := to - from;
      DestroyRange(size - removed, size);
      size := size - removed;
    }

    /** `clear`. */
    method Clear()
      requires Valid()
      modifies this`size, begin
      ensures Valid() && Contents() == []
    {
      DestroyRange(0, size);
      size := 0;
    }

    /** Both `resize`s: `fill` is what a new element is constructed from. */
    method Resize(n: nat, fill: T)
      requires Valid() && heap.Valid()
      modifies this, begin, inlineBegin, heap
      ensures Kept()
      ensures Contents() == (var s := old(Contents()); if n <= |s| then s[..n] else s + Repeat(Object(fill), n - |s|))
    {
      hide Heap.Valid;
      if n < size {
        DestroyRange(n, size);
      } else if n > size {
        Reserve(n);
        FillTo(n, Object(fill));
      }
      size := n;
    }

    /** Two arrays over one heap never share a buffer. */
    lemma BuffersApart(other: VarSizeArrayBase<T>)
      requires other != this && Valid() && other.Valid() && other.heap == heap
      ensures {begin, inlineBegin} !! {other.begin, other.inlineBegin}
    {
    }

    /** An operation on this array leaves every other array as it was. */
    twostate lemma BystanderKept(other: VarSizeArrayBase<T>)
      requires other != this && other.heap == heap && old(other.Valid()) && heap.OthersKept({this})
      requires unchanged(other) && other.begin[..] == old(other.begin[..]) && other.inlineBegin[..] == old(other.inlineBegin[..])
      ensures other.Valid() && other.Contents() == old(other.Contents())
    {
    }

    /** `resetToInline`. */
    method ResetToInline()
      requires Valid() && heap.Valid()
      modifies this, begin, inlineBegin, heap
      ensures Kept() && begin == inlineBegin && Contents() == [] && moves == old(moves)
      ensures heap.live == old(heap.live) - {old(begin)}
    {
      DestroyRange(0, size);
      if !IsInline() {
        heap.Deallocate(begin);
        begin := inlineBegin;
        capacity := inlineBegin.Length;
      }
      size := 0;
    }

    /** The destructor: afterwards this array owns nothing, and its heap buffer, if any, has been freed. */
    method Destruct()
      requires Valid() && heap.Valid()
      modifies this, begin, inlineBegin, heap
      ensures heap.Valid() && heap.OthersKept({this})
      ensures heap.live == old(heap.live) - {old(begin)} && AllRaw(inlineBegin[..])
      ensures forall b :: b in heap.owner ==> heap.owner[b] != this
    {
      DestroyRange(0, size);
      if !IsInline() {
        heap.Deallocate(begin);
      }
      heap.owner := heap.owner - {inlineBegin};
    }

    /** Copy assignment. */
    method Assign(other: VarSizeArrayBase<T>)
      requires Valid() && other.Valid() && heap.Valid() && other.heap == heap
      modifies this, begin, inlineBegin, heap
      ensures Kept() && Contents() == old(other.Contents())
      ensures other.Valid() && other.Contents() == old(other.Contents())
    {
      if this == other {
        return;
      }
      Clear();
      Reserve(other.size);
      ConstructFrom(other);
    }

    /** Copies of the other array's elements, one after the other. */
    method ConstructFrom(other: VarSizeArrayBase<T>)
      requires Valid() && other.Valid() && other != this && other.heap == heap && size == 0 && other.size <= capacity
      modifies this`size, begin
      ensures Valid() && Contents() == other.Contents()
    {
      size := 0;
      while size < other.size
        invariant size <= other.size && forall k | 0 <= k < begin.Length :: begin[k] == if k < size then other.begin[k] else Raw
      {
        var x := Read(Copy(other.begin, size));
        Construct(begin, size, x);
        size := size + 1;
      }
    }

    /** Move assignment: a heap buffer is taken over as it is; from an inline one the elements are moved. */
    method AssignMove(other: VarSizeArrayBase<T>)
      requires Valid() && other.Valid() && heap.Valid() && other.heap == heap
      modifies this, begin, inlineBegin, other, other.begin, heap
      ensures Valid() && other.Valid() && heap.Valid() && heap.OthersKept({this, other})
      ensures Contents() == old(other.Contents())
      ensures other != this ==> other.Contents() == []
      ensures other != this && !old(other.IsInline()) ==> begin == old(other.begin) && other.IsInline() && moves == old(moves)
    {
      if this == other {
        return;
      }
      hide Heap.Valid;
      ResetToInline();
      if !other.IsInline() {
        Steal(other);
      } else {
        TakeElements(other);
      }
    }

    method Steal(other: VarSizeArrayBase<T>)
      requires Valid() && other.Valid() && heap.Valid() && other != this && other.heap == heap
      requires IsInline() && size == 0 && !other.IsInline()
      modifies this, other, heap
      ensures Valid() && other.Valid() && heap.Valid() && heap.OthersKept({this, other})
      ensures Contents() == old(other.Contents()) && begin == old(other.begin) && moves == old(moves)
      ensures other.Contents() == [] && other.IsInline()
    {
      begin, size, capacity := other.begin, other.size, other.capacity;
      other.begin, other.capacity, other.size := other.inlineBegin, other.inlineBegin.Length, 0;
      heap.owner := heap.owner[begin := this];
    }

    method TakeElements(other: VarSizeArrayBase<T>)
      requires Valid() && other.Valid() && heap.Valid() && other != this && other.heap == heap && size == 0
      modifies this, begin, inlineBegin, other`size, other.begin, heap
      ensures Valid() && other.Valid() && heap.Valid() && heap.OthersKept({this, other})
      ensures Contents() == old(other.Contents()) && other.Contents() == []
    {
      hide Heap.Valid;
      Reserve(other.size);
      other.GiveTail(this, 0);
      other.Clear();
    }

    /** `swap`: two heap buffers are traded; otherwise the elements change places. */
    method Swap(other: VarSizeArrayBase<T>)
      requires Valid() && other.Valid() && heap.Valid() && other.heap == heap
      modifies this, begin, inlineBegin, other, other.begin, other.inlineBegin, heap
      ensures Valid() && other.Valid() && heap.Valid() && heap.OthersKept({this, other})
      ensures Contents() == old(other.Contents()) && other.Contents() == old(Contents())
      ensures !old(IsInline()) && !old(other.IsInline()) ==> begin == old(other.begin) && other.begin == old(begin)
    {
      hide Heap.Valid;
      if this == other {
        return;
      }
      if !IsInline() && !other.IsInline() {
        TradeBuffers(other);
        return;
      }
      ReserveBoth(other);
      SwapElements(other);
    }

    method ReserveBoth(other: VarSizeArrayBase<T>)
      requires Valid() && other.Valid() && heap.Valid() && other != this && other.heap == heap
      modifies this, begin, inlineBegin, other, other.begin, other.inlineBegin, heap
      ensures Valid() && other.Valid() && heap.Valid() && heap.OthersKept({this, other})
      ensures Contents() == old(Contents()) && other.Contents() == old(other.Contents())
      ensures other.size <= capacity && size <= other.capacity
      ensures begin == old(begin) || begin == inlineBegin || fresh(begin)
      ensures other.begin == old(other.begin) || other.begin == other.inlineBegin || fresh(other.begin)
    {
      hide Heap.Valid;
      Reserve(other.size);
      other.Reserve(size);
    }

    method TradeBuffers(other: VarSizeArrayBase<T>)
      requires Valid() && other.Valid() && heap.Valid() && other != this && other.heap == heap
      requires !IsInline() && !other.IsInline()
      modifies this, other, heap
      ensures Valid() && other.Valid() && heap.Valid() && heap.OthersKept({this, other})
      ensures Contents() == old(other.Contents()) && other.Contents() == old(Contents())
      ensures begin == old(other.begin) && other.begin == old(begin)
    {
      begin, other.begin := other.begin, begin;
      size, other.size := other.size, size;
      capacity, other.capacity := other.capacity, capacity;
      heap.owner := heap.owner[begin := this][other.begin := other];
    }

    method SwapElements(other: VarSizeArrayBase<T>)
      requires Valid() && other.Valid() && other != this && other.heap == heap
      requires other.size <= capacity && size <= other.capacity
      modifies this`size, begin, other`size, other.begin
      ensures Valid() && other.Valid()
      ensures Contents() == old(other.Contents()) && other.Contents() == old(Contents())
    {
      var shared := if size < other.size then size else other.size;
      SwapHeads(other, shared);
      if size >= other.size {
        HandOver(other, shared);
      } else {
        other.HandOver(this, shared);
      }
    }

    method SwapHeads(other: VarSizeArrayBase<T>, shared: nat)
      requires Valid() && other.Valid() && other != this && other.heap == heap && shared <= size && shared <= other.size
      modifies begin, other.begin
      ensures Valid() && other.Valid()
      ensures Contents() == old(other.Contents()[..shared] + Contents()[shared..])
      ensures other.Contents() == old(Contents()[..shared] + other.Contents()[shared..])
    {
      HeadReplaced(other.begin[..shared], begin[..], size);
      HeadReplaced(begin[..shared], other.begin[..], other.size);
      SwapShared(begin, other.begin, shared);
      assert begin[..size] == old(other.begin[..shared]) + old(begin[..size])[shared..];
      assert other.begin[..other.size] == old(begin[..shared]) + old(other.begin[..other.size])[shared..];
    }

    method HandOver(shorter: VarSizeArrayBase<T>, shared: nat)
      requires Valid() && shorter.Valid() && shorter != this && shorter.heap == heap
      requires shorter.size == shared <= size <= shorter.capacity
      modifies shorter`size, shorter.begin, this`size, begin
      ensures Valid() && shorter.Valid()
      ensures shorter.Contents() == old(shorter.Contents() + Contents()[shared..]) && Contents() == old(Contents()[..shared])
    {
      GiveTail(shorter, shared);
      DestroyRange(shared, size);
      size := shared;
    }

    /** Moves the elements from `shared` on into the unused slots of `shorter`; what stays are husks. */
    method GiveTail(shorter: VarSizeArrayBase<T>, shared: nat)
      requires Valid() && shorter.Valid() && shorter != this && shorter.heap == heap
      requires shorter.size == shared <= size <= shorter.capacity
      modifies shorter`size, begin, shorter.begin
      ensures Valid() && shorter.Valid()
      ensures shorter.Contents() == old(shorter.Contents() + Contents()[shared..])
      ensures Contents()[..shared] == old(Contents()[..shared])
    {
      MoveConstruct(shorter.begin, begin, shared, size);
      shorter.size := size;
    }
  }
}
