// The test runner's string class: up to 23 characters inside the object, longer ones on the heap.
// Over any chain of operations it is a plain sequence of characters.
module SmallString {
  import opened Common

  const LEN := 24
  const LAST := 23

  // ---- The plain form ----

  // The characters kept by a substring; `count` may reach past the end.
  function Sub(value: seq<Byte>, pos: nat, count: nat): (r: seq<Byte>)
    requires pos <= |value|
    ensures |r| == if pos + count <= |value| then count else |value| - pos
    ensures forall i :: 0 <= i < |r| ==> r[i] == value[pos + i]
  {
    value[pos..pos + Min(count, |value| - pos)]
  }

  datatype Op =
    | Construct(to: nat, chars: seq<Byte>)
    | Append(to: nat, from: nat)
    | Assign(to: nat, from: nat)
    | MoveAssign(to: nat, from: nat)
    | SubstrCopy(to: nat, from: nat, pos: nat, count: nat)
    | SubstrMove(to: nat, from: nat, pos: nat, count: nat)

  predicate Legal(values: seq<seq<Byte>>, op: Op) {
    && op.to < |values|
    && (!op.Construct? ==> op.from < |values|)
    && (op.Append? ==> op.to != op.from)
    && (op.SubstrCopy? || op.SubstrMove? ==> op.pos <= |values[op.from]|)
  }

  function Apply(values: seq<seq<Byte>>, op: Op): (r: seq<seq<Byte>>)
    requires Legal(values, op)
    ensures |r| == |values|
  {
    match op
    case Construct(to, chars) => values[to := chars]
    case Append(to, from) => values[to := values[to] + values[from]]
    case Assign(to, from) => values[to := values[from]]
    case MoveAssign(to, from) => if to == from then values else values[to := values[from]][from := []]
    case SubstrCopy(to, from, pos, count) => values[to := Sub(values[from], pos, count)]
    case SubstrMove(to, from, pos, count) => values[from := []][to := Sub(values[from], pos, count)]
  }

  ghost predicate LegalOps(values: seq<seq<Byte>>, ops: seq<Op>)
    decreases |ops|
  {
    ops == [] || (Legal(values, ops[0]) && LegalOps(Apply(values, ops[0]), ops[1..]))
  }

  ghost function Replay(values: seq<seq<Byte>>, ops: seq<Op>): seq<seq<Byte>>
    requires LegalOps(values, ops)
    decreases |ops|
  {
    if ops == [] then values else Replay(Apply(values, ops[0]), ops[1..])
  }

  // ---- Blocks of memory ----

  method CopyInto(dst: array<Byte>, at: nat, src: seq<Byte>)
    requires at + |src| <= dst.Length
    modifies dst
    ensures forall k :: 0 <= k < dst.Length ==>
      dst[k] == if at <= k < at + |src| then src[k - at] else old(dst[k])
  {
    for i := 0 to |src|
      invariant forall k :: 0 <= k < dst.Length ==>
        dst[k] == if at <= k < at + i then src[k - at] else old(dst[k])
    {
      dst[at + i] := src[i];
    }
  }

  // Moves `count` characters to the front; source and destination overlap.
  method MoveToFront(block: array<Byte>, pos: nat, count: nat)
    requires pos + count <= block.Length
    modifies block
    ensures forall k :: 0 <= k < block.Length ==>
      block[k] == if k < count then old(block[pos + k]) else old(block[k])
  {
    for i := 0 to count
      invariant forall k :: 0 <= k < block.Length ==>
        block[k] == if k < i then old(block[pos + k]) else old(block[k])
    {
      block[i] := block[pos + i];
    }
  }

  // Characters `a`, then `b` and its terminator.
  lemma Written(block: seq<Byte>, a: seq<Byte>, b: seq<Byte>)
    requires |a| + |b| < |block|
    requires forall k :: 0 <= k < |a| ==> block[k] == a[k]
    requires forall k :: |a| <= k <= |a| + |b| ==> block[k] == (b + [0])[k - |a|]
    ensures block[..|a| + |b|] == a + b && block[|a| + |b|] == 0
  {
    assert (b + [0])[|b|] == 0;
  }

  lemma Slice(s: seq<Byte>, n: nat, pos: nat, kept: nat)
    requires pos + kept <= n <= |s|
    ensures s[..n][pos..pos + kept] == s[pos..pos + kept]
  {
  }

  class String {
    const buf: array<Byte>
    var ptr: array<Byte>
    var size: nat
    var capacity: nat
    ghost var Repr: set<object>

    predicate OnHeap()
      reads buf
      requires buf.Length == LEN
    {
      buf[LAST] >= 128
    }

    function Block(): array<Byte>
      reads this, buf
      requires buf.Length == LEN
    {
      if OnHeap() then ptr else buf
    }

    function Size(): nat
      reads this, Repr
      requires Valid()
    {
      if OnHeap() then size else LAST - buf[LAST] % 32
    }

    // The tag byte counts the unused characters, so at 23 characters it is the terminator too.
    ghost predicate Valid()
      reads this, Repr
    {
      && buf in Repr && buf.Length == LEN
      && Repr == {this, buf} + (if OnHeap() then {ptr} else {})
      && (if OnHeap()
          then buf[LAST] == 128 && ptr != buf && size < capacity == ptr.Length && ptr[size] == 0
          else buf[LAST] <= LAST && buf[LAST - buf[LAST]] == 0)
    }

    ghost function Value(): (value: seq<Byte>)
      reads this, Repr
      requires Valid()
      ensures |value| == Size()
    {
      Block()[..Size()]
    }

    lemma Owns()
      requires Valid()
      ensures this in Repr && buf in Repr && buf.Length == LEN && Block() in Repr
    {
    }

    // A C function that reads the block finds the characters and a terminator.
    lemma Terminated()
      requires Valid()
      ensures Size() < Block().Length && Block()[..Size() + 1] == Value() + [0]
    {
    }

    // Writing the view destroys the characters it overlays, not the tag byte.
    method SetView(ptr': array<Byte>, size': nat, capacity': nat)
      requires buf.Length == LEN
      modifies this`ptr, this`size, this`capacity, buf
      ensures ptr == ptr' && size == size' && capacity == capacity' && buf[LAST] == old(buf[LAST])
    {
      ptr, size, capacity := ptr', size', capacity';
      for i := 0 to 16
        invariant buf[LAST] == old(buf[LAST])
        invariant ptr == ptr' && size == size' && capacity == capacity'
      {
        buf[i] := 0;
      }
    }

    // Room for `count` characters and the terminator.
    method Allocate(count: nat)
      requires buf.Length == LEN
      modifies this, buf
      ensures Valid() && Size() == count && (OnHeap() <==> count > 23)
      ensures fresh(Repr - {this, buf})
    {
      if count <= LAST {
        buf[count] := 0;
        buf[LAST] := LAST - count;
        Repr := {this, buf};
      } else {
        buf[LAST] := 128;
        var block := new Byte[count + 1];
        SetView(block, count, count + 1);
        ptr[count] := 0;
        Repr := {this, buf, ptr};
      }
    }

    method Fill(chars: seq<Byte>)
      requires buf.Length == LEN
      modifies this, buf
      ensures Valid() && Value() == chars && (OnHeap() <==> |chars| > 23)
      ensures fresh(Repr - {this, buf})
    {
      Allocate(|chars|);
      CopyInto(Block(), 0, chars);
    }

    constructor (chars: seq<Byte>)
      ensures Valid() && fresh(Repr) && Value() == chars && (OnHeap() <==> |chars| > 23)
    {
      buf := new Byte[LEN];
      ptr := new Byte[0];
      new;
      Fill(chars);
    }

    constructor Empty()
      ensures Valid() && fresh(Repr) && Value() == []
    {
      buf := new Byte[LEN];
      ptr := new Byte[0];
      new;
      Clear();
    }

    method SetSize(count: nat)
      requires Valid() && count <= Size()
      modifies this, Block()
      ensures Valid() && Repr == old(Repr) && Value() == old(Value()[..count])
    {
      if !OnHeap() {
        buf[count] := 0;
        buf[LAST] := LAST - count;
      } else {
        ptr[count] := 0;
        size := count;
      }
    }

    method Copy(other: String)
      requires buf.Length == LEN && other.Valid() && {this, buf} !! other.Repr
      modifies this, buf
      ensures Valid() && Value() == other.Value() && fresh(Repr - {this, buf})
    {
      if !other.OnHeap() {
        CopyInto(buf, 0, other.buf[..]);
        Repr := {this, buf};
      } else {
        Fill(other.ptr[..other.size]);
      }
    }

    method Assign(other: String)
      requires Valid() && other.Valid() && (other == this || other.Repr !! Repr)
      modifies this, buf
      ensures Valid() && Value() == old(other.Value()) && fresh(Repr - old(Repr))
    {
      if this != other {
        Copy(other);
      }
    }

    method Append(other: String)
      requires Valid() && other.Valid() && other.Repr !! Repr
      modifies this, Repr
      ensures Valid() && Value() == old(Value()) + other.Value() && fresh(Repr - old(Repr))
    {
      var total := Size() + other.Size();
      if !OnHeap() {
        if total < LEN {
          AppendOnStack(other, total);
        } else {
          AppendToNewBlock(other, total, total + 1);
        }
      } else if capacity > total {
        AppendInPlace(other, total);
      } else {
        var grown := capacity * 2;
        AppendToNewBlock(other, total, if grown <= total then total + 1 else grown);
      }
    }

    // The characters of `other` and its terminator, behind those in `value`.
    method WriteTail(dst: array<Byte>, ghost value: seq<Byte>, at: nat, other: String)
      requires other.Valid() && dst !in other.Repr
      requires at == |value| && at + other.Size() < dst.Length && dst[..at] == value
      modifies dst
      ensures other.Valid() && other.Value() == old(other.Value())
      ensures var total := at + other.Size();
              dst[..total] == value + other.Value() && dst[total] == 0
              && forall k :: total < k < dst.Length ==> dst[k] == old(dst[k])
    {
      ghost var tail := other.Value();
      other.Terminated();
      CopyInto(dst, at, other.Block()[..other.Size() + 1]);
      Written(dst[..], value, tail);
    }

    method AppendOnStack(other: String, total: nat)
      requires Valid() && other.Valid() && other.Repr !! Repr && !OnHeap()
      requires total == Size() + other.Size() < LEN
      modifies this, buf
      ensures Valid() && Value() == old(Value()) + other.Value() && Repr == old(Repr)
    {
      WriteTail(buf, Value(), Size(), other);
      assert buf[..total] == old(Value()) + other.Value();
      buf[LAST] := LAST - total;
    }

    method AppendInPlace(other: String, total: nat)
      requires Valid() && other.Valid() && other.Repr !! Repr && OnHeap()
      requires total == Size() + other.Size() < capacity
      modifies this, ptr
      ensures Valid() && Value() == old(Value()) + other.Value() && Repr == old(Repr)
    {
      ghost var value := Value();
      var mine := size;
      size := total;
      WriteTail(ptr, value, mine, other);
    }

    // The characters so far, in a new block with space for the rest.
    method MoveToNewBlock(total: nat, room: nat)
      requires Valid() && Size() <= total < room
      modifies this, buf
      ensures buf[LAST] == 128 && size == total && capacity == room == ptr.Length
      ensures ptr != buf && fresh(ptr) && ptr[..old(Size())] == old(Value())
    {
      var mine := Size();
      var temp := new Byte[room];
      CopyInto(temp, 0, Block()[..mine]);
      assert temp[..mine] == old(Block()[..mine]);
      if !OnHeap() {
        buf[LAST] := 128;
      }
      SetView(temp, total, room);
    }

    method AppendToNewBlock(other: String, total: nat, room: nat)
      requires Valid() && other.Valid() && other.Repr !! Repr
      requires total == Size() + other.Size() < room
      modifies this, buf
      ensures Valid() && Value() == old(Value()) + other.Value() && fresh(Repr - {this, buf})
    {
      var mine := Size();
      ghost var value := Value();
      MoveToNewBlock(total, room);
      WriteTail(ptr, value, mine, other);
      Repr := {this, buf, ptr};
    }

    // All 24 bytes, with whatever block they point to.
    method CopyUnion(other: String)
      requires buf.Length == LEN && other.Valid() && {this, buf} !! other.Repr
      modifies this, buf
      ensures Valid() && Value() == other.Value()
      ensures Repr == {this, buf} + other.Repr - {other, other.buf}
    {
      CopyInto(buf, 0, other.buf[..]);
      assert buf[..] == other.buf[..];
      ptr, size, capacity := other.ptr, other.size, other.capacity;
      Repr := {this, buf} + other.Repr - {other, other.buf};
    }

    method Clear()
      requires buf.Length == LEN
      modifies this, buf
      ensures Valid() && Value() == [] && Repr == {this, buf}
    {
      buf[0] := 0;
      buf[LAST] := LAST;
      Repr := {this, buf};
    }

    // Leaves the empty string behind.
    method Take(other: String)
      requires buf.Length == LEN && other.Valid() && {this, buf} !! other.Repr
      modifies this, buf, other, other.buf
      ensures Valid() && other.Valid() && Value() == old(other.Value()) && other.Value() == []
      ensures Repr == {this, buf} + old(other.Repr) - {other, other.buf} && other.Repr == {other, other.buf}
    {
      hide Valid, Value;
      other.Owns();
      CopyUnion(other);
      other.Clear();
    }

    method MoveAssign(other: String)
      requires Valid() && other.Valid() && (other == this || other.Repr !! Repr)
      modifies this, buf, other, other.buf
      ensures Valid() && other.Valid() && Value() == old(other.Value())
      ensures this != other ==> other.Value() == [] && other.Repr !! Repr && other.Repr <= old(other.Repr)
      ensures Repr <= old(Repr) + old(other.Repr)
    {
      if this != other {
        Take(other);
      }
    }

    constructor Moved(other: String)
      requires other.Valid()
      modifies other, other.buf
      ensures Valid() && other.Valid() && Value() == old(other.Value()) && other.Value() == []
      ensures fresh(Repr - old(other.Repr)) && other.Repr !! Repr && other.Repr <= old(other.Repr)
    {
      buf := new Byte[LEN];
      ptr := new Byte[0];
      new;
      Take(other);
    }

    method KeepPart(pos: nat, kept: nat)
      requires Valid() && pos + kept <= Size()
      modifies this, Block()
      ensures Valid() && Value() == old(Value()[pos..pos + kept]) && Repr == old(Repr)
    {
      ghost var part := Block()[pos..pos + kept];
      Slice(Block()[..], Size(), pos, kept);
      MoveToFront(Block(), pos, kept);
      assert Block()[..kept] == part;
      Slice(Block()[..], Size(), 0, kept);
      SetSize(kept);
    }

    // The rvalue form works in place and hands the characters over.
    method SubstrMove(pos: nat, count: nat) returns (r: String)
      requires Valid() && pos <= Size()
      modifies this, buf, Block()
      ensures fresh(r) && r.Valid() && r.Value() == Sub(old(Value()), pos, count)
      ensures |r.Value()| == if pos + count <= old(Size()) then count else old(Size()) - pos
      ensures forall i :: 0 <= i < |r.Value()| ==> r.Value()[i] == old(Value())[pos + i]
      ensures Valid() && Value() == [] && Repr !! r.Repr && Repr <= old(Repr) && fresh(r.Repr - old(Repr))
    {
      hide Valid, Value;
      KeepPart(pos, Min(count, Size() - pos));
      r := new String.Moved(this);
    }

    method SubstrCopy(pos: nat, count: nat) returns (r: String)
      requires Valid() && pos <= Size()
      ensures fresh(r.Repr) && r.Valid() && r.Value() == Sub(Value(), pos, count)
      ensures |r.Value()| == if pos + count <= Size() then count else Size() - pos
      ensures forall i :: 0 <= i < |r.Value()| ==> r.Value()[i] == Value()[pos + i]
    {
      var kept := Min(count, Size() - pos);
      var part := Block()[pos..pos + kept];
      Slice(Block()[..], Size(), pos, kept);
      assert part == Value()[pos..pos + kept];
      r := new String(part);
    }

    // The first `ch` from `pos` on.
    method Find(ch: Byte, pos: nat) returns (at: Option<nat>)
      requires Valid()
      ensures at.Some? ==> pos <= at.value < |Value()| && Value()[at.value] == ch
      ensures forall k :: pos <= k < (if at.Some? then at.value else |Value()|) ==> Value()[k] != ch
    {
      var it := pos;
      while it < Size() && Block()[it] != ch
        invariant forall k :: pos <= k < it < |Value()| + 1 ==> Value()[k] != ch
        invariant pos <= Size() ==> it <= Size()
      {
        it := it + 1;
      }
      at := if it < Size() then Some(it) else None;
    }
  }

  // ---- Any chain of operations ----

  ghost function Footprint(pool: seq<String>): set<object>
    reads pool
  {
    set p, o | p in pool && o in p.Repr :: o
  }

  // Live strings are distinct objects, share no memory, and hold these values.
  ghost predicate Holds(pool: seq<String>, values: seq<seq<Byte>>)
    reads pool, Footprint(pool)
  {
    && |pool| == |values|
    && (forall i :: 0 <= i < |pool| ==> pool[i].Valid() && pool[i].Value() == values[i])
    && forall i, j :: 0 <= i < |pool| && 0 <= j < |pool| && i != j ==> pool[i].Repr !! pool[j].Repr
  }

  lemma OwnAll(pool: seq<String>, values: seq<seq<Byte>>)
    requires Holds(pool, values)
    ensures forall i :: 0 <= i < |pool| ==> pool[i] in pool[i].Repr && pool[i].buf in pool[i].Repr
  {
    forall i | 0 <= i < |pool|
      ensures pool[i] in pool[i].Repr && pool[i].buf in pool[i].Repr
    {
      pool[i].Owns();
    }
  }

  // A new string takes the place of an old one.
  lemma Replace(pool: seq<String>, values: seq<seq<Byte>>, to: nat, s: String)
    requires Holds(pool, values) && to < |pool|
    requires s.Valid() && forall i :: 0 <= i < |pool| && i != to ==> pool[i].Repr !! s.Repr
    ensures Holds(pool[to := s], values[to := s.Value()]) && Footprint(pool[to := s]) <= Footprint(pool) + s.Repr
  {
  }

  // The operations that change strings in place. The others keep their values.

  method AppendIn(pool: seq<String>, ghost values: seq<seq<Byte>>, to: nat, from: nat)
    requires Holds(pool, values) && to < |pool| && from < |pool| && to != from
    modifies Footprint(pool)
    ensures Holds(pool, values[to := values[to] + values[from]])
    ensures fresh(Footprint(pool) - old(Footprint(pool)))
  {
    hide String.Valid, String.Value;
    OwnAll(pool, values);
    pool[to].Append(pool[from]);
  }

  method AssignIn(pool: seq<String>, ghost values: seq<seq<Byte>>, to: nat, from: nat)
    requires Holds(pool, values) && to < |pool| && from < |pool|
    modifies Footprint(pool)
    ensures Holds(pool, values[to := values[from]])
    ensures fresh(Footprint(pool) - old(Footprint(pool)))
  {
    hide String.Valid, String.Value;
    OwnAll(pool, values);
    pool[to].Assign(pool[from]);
  }

  method MoveAssignIn(pool: seq<String>, ghost values: seq<seq<Byte>>, to: nat, from: nat)
    requires Holds(pool, values) && to < |pool| && from < |pool|
    modifies Footprint(pool)
    ensures Holds(pool, if to == from then values else values[to := values[from]][from := []])
    ensures Footprint(pool) <= old(Footprint(pool))
  {
    hide String.Valid, String.Value;
    OwnAll(pool, values);
    pool[to].MoveAssign(pool[from]);
  }

  method SubstrMoveIn(pool: seq<String>, ghost values: seq<seq<Byte>>, from: nat, pos: nat, count: nat)
    returns (r: String)
    requires Holds(pool, values) && from < |pool| && pos <= |values[from]|
    modifies Footprint(pool)
    ensures Holds(pool, values[from := []]) && Footprint(pool) <= old(Footprint(pool))
    ensures r.Valid() && r.Value() == Sub(values[from], pos, count)
    ensures Footprint(pool) !! r.Repr && fresh(r.Repr - old(Footprint(pool)))
  {
    hide String.Valid, String.Value;
    OwnAll(pool, values);
    pool[from].Owns();
    r := pool[from].SubstrMove(pos, count);
  }

  method Perform(pool: seq<String>, ghost values: seq<seq<Byte>>, op: Op) returns (after: seq<String>)
    requires Holds(pool, values) && Legal(values, op)
    modifies Footprint(pool)
    ensures Holds(after, Apply(values, op)) && fresh(Footprint(after) - old(Footprint(pool)))
  {
    hide String.Valid, String.Value;
    after := pool;
    match op {
      case Append(to, from) => AppendIn(pool, values, to, from);
      case Assign(to, from) => AssignIn(pool, values, to, from);
      case MoveAssign(to, from) => MoveAssignIn(pool, values, to, from);
      case Construct(to, chars) =>
        var s := new String(chars);
        Replace(pool, values, to, s);
        after := pool[to := s];
      case SubstrCopy(to, from, pos, count) =>
        var s := pool[from].SubstrCopy(pos, count);
        Replace(pool, values, to, s);
        after := pool[to := s];
      case SubstrMove(to, from, pos, count) =>
        var s := SubstrMoveIn(pool, values, from, pos, count);
        Replace(pool, values[from := []], to, s);
        after := pool[to := s];
    }
  }

  method Run(pool: seq<String>, ghost values: seq<seq<Byte>>, ops: seq<Op>) returns (after: seq<String>)
    requires Holds(pool, values) && LegalOps(values, ops)
    modifies Footprint(pool)
    ensures Holds(after, Replay(values, ops))
  {
    after := pool;
    ghost var now := values;
    for i := 0 to |ops|
      invariant Holds(after, now) && fresh(Footprint(after) - old(Footprint(pool)))
      invariant LegalOps(now, ops[i..]) && Replay(now, ops[i..]) == Replay(values, ops)
    {
      assert ops[i..][0] == ops[i] && ops[i..][1..] == ops[i + 1..];
      ghost var next := Apply(now, ops[i]);
      after := Perform(after, now, ops[i]);
      now := next;
    }
  }

  function Blank(n: nat): seq<seq<Byte>> {
    seq(n, i => [])
  }

  // From `n` strings that are empty at first.
  method Chain(n: nat, ops: seq<Op>) returns (pool: seq<String>)
    requires LegalOps(Blank(n), ops)
    ensures Holds(pool, Replay(Blank(n), ops))
  {
    hide String.Valid, String.Value;
    pool := [];
    for i := 0 to n
      invariant Holds(pool, Blank(i)) && fresh(Footprint(pool))
    {
      var s := new String.Empty();
      assert Footprint(pool + [s]) == Footprint(pool) + s.Repr;
      pool := pool + [s];
    }
    pool := Run(pool, Blank(n), ops);
  }
}
