/**
 * `CommandVector`: a queue of callables kept in a `PolyChunkVector` of commands. Every
 * callable is wrapped in an object derived from the command base type, whose only member is
 * the pointer to its virtual table; on a 64-bit target a header, the base type and its
 * alignment are all 8 bytes. A command is identified by an opaque value, and running it is
 * modelled by reporting it in the order of execution.
 */
module CommandVectors {
  import opened PolyChunkVectors
  import Math

  /** `sizeof(Header)`, `alignof(Cmd)` and `sizeof(Cmd)` on a 64-bit target. */
  const PointerSize: nat := 8

  class CommandVector {
    const cmds: PolyChunkVector

    ghost predicate Valid()
      reads this, cmds
    {
      cmds.Valid() && cmds.headerSize == PointerSize && cmds.align == PointerSize && cmds.elemSize == PointerSize
    }

    /** The commands, in the order they were pushed. */
    ghost function Commands(): seq<Payload>
      reads this, cmds
    {
      cmds.Elements()
    }

    /**
     * The constructor: an empty queue; a non-zero `chunkCapacity` makes it allocate one chunk
     * for at least that many bytes up front.
     */
    constructor(chunkCapacity: nat)
      ensures Valid() && fresh(cmds) && Commands() == []
      ensures chunkCapacity == 0 ==> cmds.chunks == []
      ensures chunkCapacity != 0 ==> cmds.chunks == [EmptyChunk(cmds.ChunkCapacityFor(chunkCapacity))]
    {
      var v := new PolyChunkVector(PointerSize, PointerSize, PointerSize);
      if chunkCapacity != 0 {
        var destroyed := v.Clear(chunkCapacity);
      }
      cmds := v;
    }

    /**
     * `push`: construct the wrapper of a callable, of `size` bytes, at the back of the queue.
     * The wrapper holds the virtual table pointer and the callable, so its size is a non-zero
     * multiple of the pointer size.
     */
    method Push(cmd: int, size: nat)
      requires Valid() && Math.Aligned(size, PointerSize) && size >= PointerSize
      modifies cmds
      ensures Valid() && Commands() == old(Commands()) + [Object(cmd)] && Size() == old(Size()) + 1
    {
      var p := cmds.EmplaceBack(cmd, size);
    }

    /** `calcCapacity`: the bytes in use, summed over every chunk. */
    method CalcCapacity() returns (used: nat)
      requires Valid()
      ensures used == UsedSum(cmds.chunks) && used <= CapSum(cmds.chunks)
    {
      var total;
      used, total := cmds.CalcCapacity();
    }

    /**
     * `executeAll`: run every command, in the order they were pushed, without removing any;
     * return how many there are.
     */
    method ExecuteAll() returns (executed: seq<Payload>, n: nat)
      requires Valid()
      ensures executed == Commands() && n == |executed|
      ensures forall cmd :: cmd in executed ==> cmd.Object?
    {
      var it, k, i := cmds.Begin();
      executed := [];
      while it != cmds.End()
        invariant (it == cmds.End() && k == |cmds.chunks| && i == 0) || cmds.OnElement(it, k, i)
        invariant executed + ElementsFrom(cmds.chunks, k, i) == Commands()
        decreases |ElementsFrom(cmds.chunks, k, i)|
      {
        var cmd;
        ghost var before := executed;
        cmd, it, k, i := RunNext(it, k, i);
        executed := executed + [cmd];
        Regroup(before, cmd, ElementsFrom(cmds.chunks, k, i));
      }
      n := cmds.Size();
      ObjectsOfChunks(cmds.chunks);
    }

    /** One round of `executeAll`'s loop: run the command the iterator is on, then step past it. */
    method RunNext(it: Iter, ghost k: nat, ghost i: nat) returns (cmd: Payload, it2: Iter, ghost k2: nat, ghost i2: nat)
      requires Valid() && cmds.OnElement(it, k, i)
      ensures (it2 == cmds.End() && k2 == |cmds.chunks| && i2 == 0) || cmds.OnElement(it2, k2, i2)
      ensures cmd.Object? && ElementsFrom(cmds.chunks, k, i) == [cmd] + ElementsFrom(cmds.chunks, k2, i2)
    {
      cmd := cmds.Deref(it, k, i);
      it2, k2, i2 := cmds.Next(it, k, i);
      assert ElementsFrom(cmds.chunks, k, i) == [cmd] + ElementsFrom(cmds.chunks, k, i)[1..];
    }

    /** A sequence identity for the proof of `ExecuteAll`; no counterpart in the source. */
    lemma Regroup(a: seq<Payload>, x: Payload, b: seq<Payload>)
      ensures a + [x] + b == a + ([x] + b)
    {
    }

    /** `clear`: destroy every command, optionally resetting the chain to one chunk. */
    method Clear(resetToOneChunk: nat) returns (destroyed: seq<Payload>)
      requires Valid()
      modifies cmds
      ensures Valid() && Commands() == [] && Size() == 0 && destroyed == old(Commands())
    {
      destroyed := cmds.Clear(resetToOneChunk);
    }

    /** `size`: the number of commands. */
    function Size(): (n: nat)
      requires Valid()
      reads this, cmds
      ensures n == |Commands()|
    {
      cmds.Size()
    }
  }
}
