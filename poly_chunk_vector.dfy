/**
 * `PolyChunkVector<T>`: objects of types derived from `T` stored back to back in a
 * singly linked chain of chunks, each object preceded by a header holding the stride
 * to the next header; out-of-band (OOB) data is appended to the last header's stride,
 * or, when it does not fit, stored behind a header of its own that starts a fresh
 * chunk and is flagged so iteration skips it. `CommandVector` is a queue of callables
 * on top of it.
 *
 * The bytes of a chunk are modelled by the sequence of headers written into it, each
 * with what lies behind it (`Unit`): an object, identified by an opaque value, or raw
 * bytes. `sizeof(Header)`, `alignof(T)` and `sizeof(T)` are constants of the container.
 */
module PolyChunkVectors {
  import opened Wrappers
  import Math

  /** What lies behind a header: an object constructed there, or raw (OOB) bytes. */
  datatype Payload = Object(id: int) | RawBytes

  /** A header (its stride) and what follows it. */
  datatype Unit = Unit(stride: nat, payload: Payload)

  /** The state of one chunk: its capacity, used bytes, flag and the headers written so far. */
  datatype ChunkState = ChunkState(cap: nat, usedCap: nat, skipFirstHeader: bool, units: seq<Unit>)

  /** A pointer into the memory of the chunk at position `chunk` of the chain. */
  datatype Ptr = Ptr(chunk: nat, offset: nat)

  /** Out-of-band bytes copied to `at`. */
  datatype OobCopy = OobCopy(at: Ptr, bytes: seq<bv8>)

  /** `Iterator`: a chunk (`None` for the null chunk pointer) and a byte offset into it. */
  datatype Iter = Iter(chunk: Option<nat>, pos: nat)

  function Max(a: nat, b: nat): nat
  {
    if a >= b then a else b
  }

  /** Bytes covered by the given headers: the offset just past the last of them. */
  function SumStrides(us: seq<Unit>): nat
  {
    if us == [] then 0 else SumStrides(us[..|us| - 1]) + us[|us| - 1].stride
  }

  function Payloads(us: seq<Unit>): seq<Payload>
  {
    seq(|us|, k requires 0 <= k < |us| => us[k].payload)
  }

  /** The first header, at or after index i, that iteration treats as an element. */
  function FirstElem(c: ChunkState, i: nat): nat
  {
    if i == 0 && c.skipFirstHeader then 1 else i
  }

  /** What iteration finds in chunk c from its i-th header on. */
  function ChunkElemsFrom(c: ChunkState, i: nat): seq<Payload>
  {
    var j := FirstElem(c, i);
    if j < |c.units| then Payloads(c.units[j..]) else []
  }

  /** The elements of a chain of chunks, in iteration order. */
  function ElementsOf(cs: seq<ChunkState>): seq<Payload>
  {
    if cs == [] then [] else ElementsOf(cs[..|cs| - 1]) + ChunkElemsFrom(cs[|cs| - 1], 0)
  }

  /** What iteration finds from the i-th header of chunk k on. */
  function ElementsFrom(cs: seq<ChunkState>, k: nat, i: nat): seq<Payload>
    decreases |cs| - k
  {
    if k < |cs| then ChunkElemsFrom(cs[k], i) + ElementsFrom(cs, k + 1, 0) else []
  }

  function UsedSum(cs: seq<ChunkState>): nat
  {
    if cs == [] then 0 else UsedSum(cs[..|cs| - 1]) + cs[|cs| - 1].usedCap
  }

  function CapSum(cs: seq<ChunkState>): nat
  {
    if cs == [] then 0 else CapSum(cs[..|cs| - 1]) + cs[|cs| - 1].cap
  }

  /** An empty chunk appended to a chain changes no element and becomes a valid tail. */
  lemma {:induction false} AppendEmptyChunk(cs: seq<ChunkState>, t: nat, headerSize: nat, align: nat, c: ChunkState)
    requires align > 0 && ModelOk(cs, t, headerSize, align)
    requires c.usedCap == 0 && !c.skipFirstHeader && c.units == []
    ensures ModelOk(cs + [c], |cs|, headerSize, align)
    ensures ElementsOf(cs + [c]) == ElementsOf(cs)
  {
    assert (cs + [c])[..|cs|] == cs;
    assert ChunkOk(c, headerSize, align);
  }

  /** A chunk after `clear` has visited it. */
  function Cleared(c: ChunkState): ChunkState
  {
    ChunkState(c.cap, 0, false, [])
  }

  function ClearedAll(cs: seq<ChunkState>): seq<ChunkState>
  {
    seq(|cs|, i requires 0 <= i < |cs| => Cleared(cs[i]))
  }

  /**
   * The layout of one chunk: the strides add up to `usedCap`, which stays within `cap`;
   * every stride covers at least a header and keeps `alignof(T)`; the flag is only set
   * on a chunk with a first header.
   */
  ghost predicate ChunkOk(c: ChunkState, headerSize: nat, align: nat)
    requires align > 0
  {
    && c.usedCap == SumStrides(c.units) && c.usedCap <= c.cap && Math.Aligned(c.usedCap, align)
    && (forall j :: 0 <= j < |c.units| ==> c.units[j].stride >= headerSize)
    && (c.skipFirstHeader ==> c.units != [])
  }

  /** Every header that iteration visits in c has an object behind it. */
  ghost predicate ChunkObjects(c: ChunkState)
  {
    forall j :: FirstElem(c, 0) <= j < |c.units| ==> c.units[j].payload.Object?
  }

  /** When every chunk holds objects only, so do the elements. */
  lemma {:induction false} ObjectsOfChunks(cs: seq<ChunkState>)
    requires forall i :: 0 <= i < |cs| ==> ChunkObjects(cs[i])
    ensures forall p :: p in ElementsOf(cs) ==> p.Object?
  {
    if cs != [] {
      var init, last := cs[..|cs| - 1], cs[|cs| - 1];
      ObjectsOfChunks(init);
      var j := FirstElem(last, 0);
      forall p | p in ChunkElemsFrom(last, 0)
        ensures p.Object?
      {
        var k :| 0 <= k < |ChunkElemsFrom(last, 0)| && ChunkElemsFrom(last, 0)[k] == p;
        assert p == last.units[j + k].payload;
      }
    }
  }

  /** Every chunk is laid out well and the chunks after the tail are empty. */
  ghost predicate ModelOk(cs: seq<ChunkState>, tailIdx: nat, headerSize: nat, align: nat)
    requires align > 0
  {
    && (forall i :: 0 <= i < |cs| ==> ChunkOk(cs[i], headerSize, align))
    && (forall i :: tailIdx < i < |cs| ==> cs[i].units == [])
  }

  /** The header written at the end of the used part of a chunk is followed by an aligned offset. */
  lemma {:induction false} NextHeaderAligned(c: ChunkState, headerSize: nat, align: nat, offset: nat)
    requires align > 0 && ChunkOk(c, headerSize, align) && Math.Aligned(headerSize, align)
    requires offset == c.usedCap + headerSize
    ensures Math.Aligned(offset, align)
  {
    Math.AlignedAdd(c.usedCap, headerSize, align);
  }

  /** Offsets of headers strictly increase: the i-th header lies below the j-th when i < j. */
  lemma {:induction false} OffsetsIncrease(us: seq<Unit>, i: nat, j: nat)
    requires i <= j <= |us|
    requires forall k :: 0 <= k < |us| ==> us[k].stride > 0
    ensures SumStrides(us[..i]) <= SumStrides(us[..j])
    ensures i < j ==> SumStrides(us[..i]) < SumStrides(us[..j])
  {
    if i < j {
      assert us[..j][..j - 1] == us[..j - 1];
      OffsetsIncrease(us, i, j - 1);
    }
  }

  lemma {:induction false} OffsetStep(us: seq<Unit>, i: nat)
    requires i < |us|
    ensures SumStrides(us[..i + 1]) == SumStrides(us[..i]) + us[i].stride
  {
    assert us[..i + 1][..i] == us[..i];
  }

  /** A chain whose chunks after index t are empty holds the elements up to and including chunk t. */
  lemma {:induction false} ElementsUpToTail(cs: seq<ChunkState>, t: nat)
    requires t < |cs|
    requires forall i :: t < i < |cs| ==> cs[i].units == []
    ensures ElementsOf(cs) == ElementsOf(cs[..t]) + ChunkElemsFrom(cs[t], 0)
  {
    var init := cs[..|cs| - 1];
    if t < |cs| - 1 {
      assert init[..t] == cs[..t];
      ElementsUpToTail(init, t);
    } else {
      assert init == cs[..t];
    }
  }

  /** ElementsOf read from the front. */
  lemma {:induction false} ElementsOfCons(cs: seq<ChunkState>)
    requires cs != []
    ensures ElementsOf(cs) == ChunkElemsFrom(cs[0], 0) + ElementsOf(cs[1..])
  {
    if |cs| > 1 {
      var init := cs[..|cs| - 1];
      ElementsOfCons(init);
      assert init[1..] == cs[1..][..|cs[1..]| - 1];
    } else {
      assert cs[1..] == [];
    }
  }

  /** Iteration from the start of chunk k yields the elements of the chain from chunk k on. */
  lemma {:induction false} ElementsFromSuffix(cs: seq<ChunkState>, k: nat)
    requires k <= |cs|
    ensures ElementsFrom(cs, k, 0) == ElementsOf(cs[k..])
    decreases |cs| - k
  {
    if k < |cs| {
      ElementsFromSuffix(cs, k + 1);
      ElementsOfCons(cs[k..]);
      assert cs[k..][1..] == cs[k + 1..];
    } else {
      assert cs[k..] == [];
    }
  }

  lemma {:induction false} ElementsFromStart(cs: seq<ChunkState>)
    ensures ElementsFrom(cs, 0, 0) == ElementsOf(cs)
  {
    ElementsFromSuffix(cs, 0);
    assert cs[0..] == cs;
  }

  /** The chain with chunk t replaced by c, when every chunk after t is empty. */
  lemma {:induction false} ElementsReplaceTail(cs: seq<ChunkState>, t: nat, c: ChunkState)
    requires t < |cs|
    requires forall i :: t < i < |cs| ==> cs[i].units == []
    ensures ElementsOf(cs[t := c]) == ElementsOf(cs[..t]) + ChunkElemsFrom(c, 0)
  {
    ElementsUpToTail(cs, t);
    ElementsUpToTail(cs[t := c], t);
    assert cs[t := c][..t] == cs[..t];
  }

  /** Writing one more header into a chunk adds what lies behind it as the chunk's last element. */
  lemma {:induction false} ChunkElemsAppend(c: ChunkState, u: Unit, used: nat)
    requires c.skipFirstHeader ==> c.units != []
    ensures ChunkElemsFrom(ChunkState(c.cap, used, c.skipFirstHeader, c.units + [u]), 0)
         == ChunkElemsFrom(c, 0) + [u.payload]
  {
    var j := FirstElem(c, 0);
    var us := c.units + [u];
    if j < |c.units| {
      assert us[j..] == c.units[j..] + [u];
    } else {
      assert j == |c.units| && us[j..] == [u];
    }
  }

  /** Changing strides without touching what lies behind the headers changes no element. */
  lemma {:induction false} ChunkElemsSameKinds(c: ChunkState, d: ChunkState)
    requires c.skipFirstHeader == d.skipFirstHeader && |c.units| == |d.units|
    requires forall j :: 0 <= j < |c.units| ==> c.units[j].payload == d.units[j].payload
    ensures ChunkElemsFrom(c, 0) == ChunkElemsFrom(d, 0)
  {
  }

  /** A chain of cleared chunks holds no element and uses no byte. */
  lemma {:induction false} ClearedAllEmpty(cs: seq<ChunkState>)
    ensures ElementsOf(ClearedAll(cs)) == [] && UsedSum(ClearedAll(cs)) == 0
    ensures CapSum(ClearedAll(cs)) == CapSum(cs)
  {
    if cs != [] {
      var init := cs[..|cs| - 1];
      ClearedAllEmpty(init);
      assert ClearedAll(cs)[..|cs| - 1] == ClearedAll(init);
    }
  }

  /** The used bytes of a chain never exceed its capacity. */
  lemma {:induction false} UsedWithinCap(cs: seq<ChunkState>, headerSize: nat, align: nat)
    requires align > 0
    requires forall i :: 0 <= i < |cs| ==> ChunkOk(cs[i], headerSize, align)
    ensures UsedSum(cs) <= CapSum(cs)
  {
    if cs != [] {
      UsedWithinCap(cs[..|cs| - 1], headerSize, align);
      assert ChunkOk(cs[|cs| - 1], headerSize, align);
    }
  }

  /**
   * The container's invariant on the chunk states: `t` is the tail's index (when there is a
   * tail, which is null exactly when
   * there is no chunk), `n` the element count, `hasLast` whether the last header is recorded.
   */
  ghost predicate StateOk(cs: seq<ChunkState>, t: nat, n: nat, hasLast: bool, headerSize: nat, align: nat)
  {
    && align > 0
    && (cs != [] ==> t < |cs|)
    && ModelOk(cs, t, headerSize, align)
    && n == |ElementsOf(cs)|
    && (forall i :: 0 <= i < |cs| ==> ChunkObjects(cs[i]))
    && (hasLast <==> cs != [] && cs[t].units != [])
  }

  /** A fresh chunk of capacity `cap`. */
  function EmptyChunk(cap: nat): ChunkState
  {
    ChunkState(cap, 0, false, [])
  }

  /**
   * What `getFreeChunk` does to the chunk states: without a tail the first chunk is created;
   * otherwise the tail moves to the first chunk after it with room for `cap` bytes, or, when
   * there is none, to a new chunk of exactly `cap` bytes appended to the chain.
   */
  ghost predicate FreeChunkStep(cs: seq<ChunkState>, t: nat, cs2: seq<ChunkState>, t2: nat, cap: nat)
  {
    if cs == [] then cs2 == [EmptyChunk(cap)] && t2 == 0
    else
      && t < t2
      && (forall i :: t < i < t2 && i < |cs| ==> cs[i].cap < cap)
      && ((cs2 == cs && t2 < |cs| && cs[t2].cap >= cap) || (cs2 == cs + [EmptyChunk(cap)] && t2 == |cs|))
  }

  /**
   * `getFreeChunk` keeps the invariant and the elements, and leaves an empty tail with room
   * for `cap` bytes; the chain only grows, by at most one chunk.
   */
  lemma {:induction false} FreeChunkKeepsState(cs: seq<ChunkState>, t: nat, n: nat, hasLast: bool,
                            cs2: seq<ChunkState>, t2: nat, cap: nat, headerSize: nat, align: nat)
    requires StateOk(cs, t, n, hasLast, headerSize, align)
    requires FreeChunkStep(cs, t, cs2, t2, cap)
    ensures StateOk(cs2, t2, n, false, headerSize, align)
    ensures ElementsOf(cs2) == ElementsOf(cs)
    ensures cs2[t2].units == [] && cs2[t2].cap >= cap
    ensures cs <= cs2 && |cs2| <= |cs| + 1
    ensures |cs2| == |cs| + 1 ==> t2 == |cs| && cs2[t2] == EmptyChunk(cap)
  {
    if cs2 != cs {
      AppendEmptyChunk(cs, t, headerSize, align, EmptyChunk(cap));
      assert cs2 == cs + [EmptyChunk(cap)];
    }
  }

  /** A chunk after one more header, and what lies behind it, has been written at its end. */
  function Push(c: ChunkState, u: Unit): ChunkState
  {
    ChunkState(c.cap, c.usedCap + u.stride, c.skipFirstHeader, c.units + [u])
  }

  /** A chunk after `n` bytes of OOB data have been added to the stride of its last header. */
  function Grow(c: ChunkState, n: nat): ChunkState
    requires c.units != []
  {
    var last := c.units[|c.units| - 1];
    ChunkState(c.cap, c.usedCap + n, c.skipFirstHeader, c.units[..|c.units| - 1] + [Unit(last.stride + n, last.payload)])
  }

  /** A chunk whose first header only covers OOB data. */
  function OobChunk(cap: nat, stride: nat): ChunkState
  {
    ChunkState(cap, stride, true, [Unit(stride, RawBytes)])
  }

  lemma {:induction false} SumStridesPush(us: seq<Unit>, u: Unit)
    ensures SumStrides(us + [u]) == SumStrides(us) + u.stride
  {
    assert (us + [u])[..|us|] == us;
  }

  /**
   * Replacing the tail's state by a well laid out one keeps the invariant, with `n2` the new
   * element count and `hasLast2` whether the new tail has a last header.
   */
  lemma {:induction false} ReplaceTailKeepsState(cs: seq<ChunkState>, t: nat, n: nat, hasLast: bool, d: ChunkState,
                              n2: nat, hasLast2: bool, headerSize: nat, align: nat)
    requires StateOk(cs, t, n, hasLast, headerSize, align) && t < |cs|
    requires ChunkOk(d, headerSize, align) && ChunkObjects(d)
    requires n2 == n - |ChunkElemsFrom(cs[t], 0)| + |ChunkElemsFrom(d, 0)| && hasLast2 == (d.units != [])
    ensures ElementsOf(cs[t := d]) == ElementsOf(cs[..t]) + ChunkElemsFrom(d, 0)
    ensures ElementsOf(cs) == ElementsOf(cs[..t]) + ChunkElemsFrom(cs[t], 0)
    ensures StateOk(cs[t := d], t, n2, hasLast2, headerSize, align)
  {
    ElementsUpToTail(cs, t);
    ElementsReplaceTail(cs, t, d);
  }

  /** One more header within the capacity keeps a chunk well laid out. */
  lemma {:induction false} PushChunkOk(c: ChunkState, u: Unit, headerSize: nat, align: nat)
    requires align > 0 && ChunkOk(c, headerSize, align)
    requires c.usedCap + u.stride <= c.cap && u.stride >= headerSize && Math.Aligned(u.stride, align)
    ensures ChunkOk(Push(c, u), headerSize, align)
  {
    SumStridesPush(c.units, u);
    Math.AlignedAdd(c.usedCap, u.stride, align);
  }

  /**
   * Writing an object behind a new header at the end of the tail keeps the invariant and adds
   * exactly that object as the last element.
   */
  lemma {:induction false} PushKeepsState(cs: seq<ChunkState>, t: nat, n: nat, hasLast: bool, u: Unit, headerSize: nat, align: nat)
    requires StateOk(cs, t, n, hasLast, headerSize, align) && t < |cs|
    requires cs[t].usedCap + u.stride <= cs[t].cap && u.stride >= headerSize && Math.Aligned(u.stride, align)
    requires u.payload.Object?
    ensures StateOk(cs[t := Push(cs[t], u)], t, n + 1, true, headerSize, align)
    ensures ElementsOf(cs[t := Push(cs[t], u)]) == ElementsOf(cs) + [u.payload]
  {
    var c := cs[t];
    var d := Push(c, u);
    assert ChunkOk(d, headerSize, align) && ChunkObjects(d) by {
      assert ChunkOk(c, headerSize, align) && ChunkObjects(c);
      PushChunkOk(c, u, headerSize, align);
    }
    assert ChunkElemsFrom(d, 0) == ChunkElemsFrom(c, 0) + [u.payload] by {
      assert ChunkOk(c, headerSize, align);
      ChunkElemsAppend(c, u, d.usedCap);
    }
    ReplaceTailKeepsState(cs, t, n, hasLast, d, n + 1, true, headerSize, align);
  }

  /** Growing the last stride by aligned bytes within the capacity keeps a chunk well laid out. */
  lemma {:induction false} GrowChunkOk(c: ChunkState, k: nat, headerSize: nat, align: nat)
    requires align > 0 && ChunkOk(c, headerSize, align) && c.units != []
    requires c.usedCap + k <= c.cap && Math.Aligned(k, align)
    ensures ChunkOk(Grow(c, k), headerSize, align)
  {
    var m := |c.units| - 1;
    var last := c.units[m];
    SumStridesPush(c.units[..m], last);
    SumStridesPush(c.units[..m], Unit(last.stride + k, last.payload));
    assert c.units[..m] + [last] == c.units;
    Math.AlignedAdd(c.usedCap, k, align);
  }

  /** Adding aligned OOB bytes to the last header's stride keeps the invariant and the elements. */
  lemma {:induction false} GrowKeepsState(cs: seq<ChunkState>, t: nat, n: nat, k: nat, headerSize: nat, align: nat)
    requires StateOk(cs, t, n, true, headerSize, align)
    requires cs[t].usedCap + k <= cs[t].cap && Math.Aligned(k, align)
    ensures StateOk(cs[t := Grow(cs[t], k)], t, n, true, headerSize, align)
    ensures ElementsOf(cs[t := Grow(cs[t], k)]) == ElementsOf(cs)
  {
    var c := cs[t];
    var d := Grow(c, k);
    assert ChunkOk(c, headerSize, align) && ChunkObjects(c);
    GrowChunkOk(c, k, headerSize, align);
    ChunkElemsSameKinds(c, d);
    ReplaceTailKeepsState(cs, t, n, true, d, n, true, headerSize, align);
  }

  /** OOB data behind a skipped first header of the empty tail keeps the invariant and the elements. */
  lemma {:induction false} OobKeepsState(cs: seq<ChunkState>, t: nat, n: nat, stride: nat, headerSize: nat, align: nat)
    requires StateOk(cs, t, n, false, headerSize, align) && t < |cs|
    requires cs[t].units == [] && stride <= cs[t].cap && stride >= headerSize && Math.Aligned(stride, align)
    ensures StateOk(cs[t := OobChunk(cs[t].cap, stride)], t, n, true, headerSize, align)
    ensures ElementsOf(cs[t := OobChunk(cs[t].cap, stride)]) == ElementsOf(cs)
  {
    var d := OobChunk(cs[t].cap, stride);
    SumStridesPush([], Unit(stride, RawBytes));
    assert [] + [Unit(stride, RawBytes)] == d.units;
    assert ChunkOk(d, headerSize, align);
    assert ChunkElemsFrom(d, 0) == [] == ChunkElemsFrom(cs[t], 0);
    ReplaceTailKeepsState(cs, t, n, false, d, n, true, headerSize, align);
  }

  /**
   * Writing a flagged OOB header of `stride` bytes into the empty tail `t` of `mid`, the chain
   * `getSpace` left behind `cs`, keeps the invariant and the elements, and moves no header of `cs`.
   */
  lemma {:induction false} OobFill(mid: seq<ChunkState>, t: nat, n: nat, stride: nat, written: seq<ChunkState>, cs2: seq<ChunkState>,
                                   headerSize: nat, align: nat)
    requires StateOk(mid, t, n, false, headerSize, align) && t < |mid|
    requires mid[t] == EmptyChunk(mid[t].cap) && headerSize <= stride <= mid[t].cap && Math.Aligned(stride, align)
    requires written == mid[t := Push(mid[t], Unit(stride, RawBytes))]
    requires cs2 == written[t := written[t].(skipFirstHeader := true)]
    ensures StateOk(cs2, t, n, true, headerSize, align) && ElementsOf(cs2) == ElementsOf(mid)
  {
    OobWritten(mid, t, stride, written, cs2);
    OobKeepsState(mid, t, n, stride, headerSize, align);
  }

  /** The chain after an OOB header is written into the empty chunk t and flagged. */
  lemma {:induction false} OobWritten(mid: seq<ChunkState>, t: nat, stride: nat, written: seq<ChunkState>, cs2: seq<ChunkState>)
    requires t < |mid| && mid[t] == EmptyChunk(mid[t].cap)
    requires written == mid[t := Push(mid[t], Unit(stride, RawBytes))]
    requires cs2 == written[t := written[t].(skipFirstHeader := true)]
    ensures cs2 == mid[t := OobChunk(mid[t].cap, stride)]
    ensures cs2[t := EmptyChunk(cs2[t].cap)] == mid
  {
    assert [] + [Unit(stride, RawBytes)] == [Unit(stride, RawBytes)];
  }

  /** Headers that never move: every header of c is still in d, at the same offset, with the same thing behind it. */
  ghost predicate Keeps(c: ChunkState, d: ChunkState)
  {
    && |c.units| <= |d.units|
    && (forall j :: 0 <= j < |c.units| ==> d.units[j].payload == c.units[j].payload)
    && (forall j :: 0 <= j && j + 1 < |c.units| ==> d.units[j].stride == c.units[j].stride)
  }

  /** No header of the chain cs has moved in cs2. */
  ghost predicate NeverMoved(cs: seq<ChunkState>, cs2: seq<ChunkState>)
  {
    |cs| <= |cs2| && forall i :: 0 <= i < |cs| ==> Keeps(cs[i], cs2[i])
  }

  lemma {:induction false} SameStrides(us: seq<Unit>, vs: seq<Unit>)
    requires |us| == |vs| && forall j :: 0 <= j < |us| ==> us[j].stride == vs[j].stride
    ensures SumStrides(us) == SumStrides(vs)
  {
    if us != [] {
      SameStrides(us[..|us| - 1], vs[..|vs| - 1]);
    }
  }

  /** What `Keeps` promises: the j-th header of c lies at the same offset in d. */
  lemma {:induction false} KeepsOffsets(c: ChunkState, d: ChunkState, j: nat)
    requires Keeps(c, d) && j < |c.units|
    ensures SumStrides(d.units[..j]) == SumStrides(c.units[..j])
    ensures d.units[j].payload == c.units[j].payload
  {
    SameStrides(d.units[..j], c.units[..j]);
  }

  /** Writing a new header at the end of chunk t, of a chain that has only grown, moves nothing. */
  lemma {:induction false} PushNeverMoves(cs: seq<ChunkState>, mid: seq<ChunkState>, t: nat, u: Unit)
    requires cs <= mid && t < |mid|
    ensures NeverMoved(cs, mid[t := Push(mid[t], u)])
  {
    var cs2 := mid[t := Push(mid[t], u)];
    forall i | 0 <= i < |cs|
      ensures Keeps(cs[i], cs2[i])
    {
      assert cs[i] == mid[i];
    }
  }

  /** Growing the last stride of chunk t moves nothing. */
  lemma {:induction false} GrowNeverMoves(cs: seq<ChunkState>, t: nat, k: nat)
    requires t < |cs| && cs[t].units != []
    ensures NeverMoved(cs, cs[t := Grow(cs[t], k)])
  {
    var c := cs[t];
    var m := |c.units| - 1;
    assert forall j :: 0 <= j < m ==> Grow(c, k).units[j] == c.units[j];
  }

  /** Replacing an empty chunk t of a chain that has only grown moves nothing. */
  lemma {:induction false} FillNeverMoves(cs: seq<ChunkState>, mid: seq<ChunkState>, t: nat, d: ChunkState)
    requires cs <= mid && t < |mid| && mid[t].units == []
    ensures NeverMoved(cs, mid[t := d])
  {
    var cs2 := mid[t := d];
    forall i | 0 <= i < |cs|
      ensures Keeps(cs[i], cs2[i])
    {
      assert cs[i] == mid[i];
    }
  }

  /** The header that starts `pos` bytes into a chunk whose headers are `us`, as read from its memory. */
  function HeaderAt(us: seq<Unit>, pos: nat): Option<Unit>
  {
    if us == [] then None
    else if pos == 0 then Some(us[0])
    else if pos < us[0].stride then None
    else HeaderAt(us[1..], pos - us[0].stride)
  }

  lemma {:induction false} SumStridesCons(u: Unit, vs: seq<Unit>)
    ensures SumStrides([u] + vs) == u.stride + SumStrides(vs)
  {
    if vs != [] {
      var init := vs[..|vs| - 1];
      SumStridesCons(u, init);
      assert ([u] + vs)[..|vs|] == [u] + init;
    }
  }

  /** Reading the header at the offset of the k-th header finds the k-th header. */
  lemma {:induction false} HeaderAtOffset(us: seq<Unit>, k: nat)
    requires k < |us| && forall j :: 0 <= j < |us| ==> us[j].stride > 0
    ensures HeaderAt(us, SumStrides(us[..k])) == Some(us[k])
  {
    if k > 0 {
      var rest := us[1..];
      assert us[..k] == [us[0]] + rest[..k - 1];
      SumStridesCons(us[0], rest[..k - 1]);
      HeaderAtOffset(rest, k - 1);
    }
  }

  /** The offset of the i-th header lies inside the used part exactly when there is such a header. */
  lemma {:induction false} OffsetInUse(c: ChunkState, i: nat, headerSize: nat, align: nat)
    requires align > 0 && headerSize > 0 && ChunkOk(c, headerSize, align) && i <= |c.units|
    ensures SumStrides(c.units[..i]) < c.usedCap <==> i < |c.units|
    ensures SumStrides(c.units[..i]) == 0 <==> i == 0
  {
    assert c.units[..|c.units|] == c.units;
    OffsetsIncrease(c.units, i, |c.units|);
    OffsetsIncrease(c.units, 0, i);
  }

  /** What iteration finds from a header that it treats as an element. */
  lemma {:induction false} ElementsFromStep(cs: seq<ChunkState>, k: nat, i: nat)
    requires k < |cs| && i < |cs[k].units| && FirstElem(cs[k], i) == i
    ensures ElementsFrom(cs, k, i) == [cs[k].units[i].payload] + ElementsFrom(cs, k, i + 1)
  {
    var c, rest := cs[k], ElementsFrom(cs, k + 1, 0);
    var here, next := Payloads(c.units[i..]), Payloads(c.units[i + 1..]);
    assert here == [c.units[i].payload] + next;
    assert ChunkElemsFrom(c, i + 1) == next;
    assert ElementsFrom(cs, k, i) == here + rest;
    assert ElementsFrom(cs, k, i + 1) == next + rest;
  }

  /** Past the last header of chunk k, iteration goes on at the start of the next chunk. */
  lemma {:induction false} ElementsFromNext(cs: seq<ChunkState>, k: nat, i: nat)
    requires k < |cs| && |cs[k].units| <= i
    ensures ElementsFrom(cs, k, i) == ElementsFrom(cs, k + 1, 0)
  {
    var rest := ElementsFrom(cs, k + 1, 0);
    assert FirstElem(cs[k], i) >= |cs[k].units|;
    assert ElementsFrom(cs, k, i) == [] + rest;
  }

  /** A chain of cleared chunks keeps the invariant with its first chunk as tail. */
  lemma {:induction false} ClearedAllOk(cs: seq<ChunkState>, headerSize: nat, align: nat)
    requires align > 0
    ensures StateOk(ClearedAll(cs), 0, 0, false, headerSize, align)
  {
    ClearedAllEmpty(cs);
    assert forall i :: 0 <= i < |cs| ==> ChunkOk(ClearedAll(cs)[i], headerSize, align);
  }

  /** Clearing chunk c adds its elements to the ones destroyed so far. */
  lemma {:induction false} ElementsOfPrefix(cs: seq<ChunkState>, c: nat)
    requires c < |cs|
    ensures ElementsOf(cs[..c + 1]) == ElementsOf(cs[..c]) + ChunkElemsFrom(cs[c], 0)
  {
    assert cs[..c + 1][..c] == cs[..c];
  }

  lemma {:induction false} PayloadsSnoc(us: seq<Unit>, j: nat, i: nat)
    requires j <= i < |us|
    ensures Payloads(us[j..i + 1]) == Payloads(us[j..i]) + [us[i].payload]
  {
    assert Payloads(us[j..i + 1])[..i - j] == Payloads(us[j..i]);
  }

  /**
   * The inner loop of `clear`: walk the headers of chunk c as laid out in its memory, skipping
   * the flagged first header, and destroy every object behind them. Exactly the chunk's
   * elements are destroyed, in iteration order.
   */
  method DestroyObjects(c: ChunkState, headerSize: nat, align: nat) returns (destroyed: seq<Payload>)
    requires align > 0 && headerSize > 0 && ChunkOk(c, headerSize, align)
    ensures destroyed == ChunkElemsFrom(c, 0)
  {
    assert forall j :: 0 <= j < |c.units| ==> c.units[j].stride > 0;
    var pos := 0;
    ghost var i := 0;
    if c.skipFirstHeader {
      assert c.units[..0] == [];
      HeaderAtOffset(c.units, 0);
      OffsetStep(c.units, 0);
      pos := pos + HeaderAt(c.units, pos).value.stride;
      i := 1;
    }
    ghost var first := i;
    destroyed := [];
    while pos < c.usedCap
      invariant first == FirstElem(c, 0) <= i <= |c.units| && pos == SumStrides(c.units[..i])
      invariant destroyed == Payloads(c.units[first..i])
      decreases |c.units| - i
    {
      OffsetInUse(c, i, headerSize, align);
      HeaderAtOffset(c.units, i);
      var h := HeaderAt(c.units, pos).value;
      destroyed := destroyed + [h.payload];
      PayloadsSnoc(c.units, first, i);
      OffsetStep(c.units, i);
      pos := pos + h.stride;
      i := i + 1;
    }
    OffsetInUse(c, i, headerSize, align);
  }

  /** `strlen`: the index of the first null byte. */
  method StrLen(str: seq<bv8>) returns (n: nat)
    requires 0 in str
    ensures n < |str| && str[n] == 0 && forall j :: 0 <= j < n ==> str[j] != 0
  {
    n := 0;
    while str[n] != 0
      invariant n < |str| && 0 in str[n..] && forall j :: 0 <= j < n ==> str[j] != 0
      decreases |str| - n
    {
      assert str[n..] == [str[n]] + str[n + 1..];
      n := n + 1;
    }
  }

  /**
   * The container. `chunks` is the chain from `m_head`, one state per chunk in `next` order;
   * `tailIdx` is the position of `m_tail`, which is null exactly when the chain is empty;
   * `hasLastHeader` says whether `m_lastHeader` is set, in which case it addresses the last
   * header of the tail. `sizeof(Header)`, `alignof(T)` and `sizeof(T)` are the constants.
   */
  class PolyChunkVector {
    const headerSize: nat
    const align: nat
    const elemSize: nat
    var chunks: seq<ChunkState>
    var tailIdx: nat
    var hasLastHeader: bool
    var numElements: nat
    /** The out-of-band data copied into the chunks since the last `clear`, oldest first. */
    var oobData: seq<OobCopy>

    /** `sizeof(Header)` and `sizeof(T)` are multiples of `alignof(T)`, as `alignas` makes them. */
    ghost predicate Params()
    {
      headerSize > 0 && align > 0 && Math.Aligned(headerSize, align) && Math.Aligned(elemSize, align)
    }

    ghost predicate Valid()
      reads this`chunks, this`tailIdx, this`numElements, this`hasLastHeader
    {
      Params() && StateOk(chunks, tailIdx, numElements, hasLastHeader, headerSize, align)
    }

    /** The elements, in iteration order. */
    ghost function Elements(): seq<Payload>
      reads this`chunks
    {
      ElementsOf(chunks)
    }

    /** `InitialChunkCapacity`. */
    function InitialChunkCapacity(): nat
    {
      (headerSize + elemSize) * 1024
    }

    /** The capacity `getFreeChunk` turns a request into. */
    function ChunkCapacityFor(n: nat): nat
    {
      Math.RoundUpToMultipleOf(Max(headerSize + elemSize, n), align)
    }

    /** The default constructor: no chunk is allocated. */
    constructor(headerSize: nat, align: nat, elemSize: nat)
      requires headerSize > 0 && align > 0 && Math.Aligned(headerSize, align) && Math.Aligned(elemSize, align)
      ensures Valid()
      ensures this.headerSize == headerSize && this.align == align && this.elemSize == elemSize
      ensures chunks == [] && Elements() == [] && oobData == []
    {
      this.headerSize := headerSize;
      this.align := align;
      this.elemSize := elemSize;
      chunks, tailIdx := [], 0;
      hasLastHeader := false;
      numElements := 0;
      oobData := [];
    }

    /** `size`. */
    function Size(): (n: nat)
      requires Valid()
      reads this
      ensures n == |Elements()|
    {
      numElements
    }

    /** Whether `total` more bytes fit behind the used part of the tail. */
    ghost predicate Fits(cs: seq<ChunkState>, t: nat, total: nat)
    {
      t < |cs| && cs[t].usedCap + total <= cs[t].cap
    }

    /**
     * The capacity `getSpace` asks `getFreeChunk` for when a header of `total` bytes does not
     * fit: at least the initial capacity for the first chunk, at least the old tail's after it.
     */
    ghost function SpaceCapacity(cs: seq<ChunkState>, t: nat, total: nat): nat
    {
      if t < |cs| then ChunkCapacityFor(Max(total, cs[t].cap))
      else ChunkCapacityFor(Max(total, InitialChunkCapacity()))
    }

    /**
     * What `getSpace` does before writing a header of `total` bytes: keep the tail when the
     * header fits, else get a free chunk of `SpaceCapacity`.
     */
    ghost predicate SpaceStep(cs: seq<ChunkState>, t: nat, mid: seq<ChunkState>, mt: nat, total: nat)
    {
      if Fits(cs, t, total) then mid == cs && mt == t
      else FreeChunkStep(cs, t, mid, mt, SpaceCapacity(cs, t, total))
    }

    /** After that step the tail has room for the header, and nothing else has changed. */
    lemma {:induction false} SpaceStepKeepsState(cs: seq<ChunkState>, t: nat, n: nat, hasLast: bool,
                              mid: seq<ChunkState>, mt: nat, total: nat)
      requires StateOk(cs, t, n, hasLast, headerSize, align)
      requires SpaceStep(cs, t, mid, mt, total)
      ensures mt < |mid| && StateOk(mid, mt, n, mid[mt].units != [], headerSize, align)
      ensures ElementsOf(mid) == ElementsOf(cs) && cs <= mid
      ensures mid[mt].usedCap + total <= mid[mt].cap
      ensures !Fits(cs, t, total) ==> mid[mt].units == []
    {
      if !Fits(cs, t, total) {
        FreeChunkKeepsState(cs, t, n, hasLast, mid, mt, SpaceCapacity(cs, t, total), headerSize, align);
        assert ChunkOk(mid[mt], headerSize, align);
      }
    }

    /**
     * `getFreeChunk`: make the tail an empty chunk of at least `ChunkCapacityFor(chunkCapacity)`
     * bytes, reusing the first large enough chunk after the tail, else appending a new one.
     */
    method GetFreeChunk(chunkCapacity: nat)
      requires Valid()
      modifies this
      ensures oobData == old(oobData)
      ensures Valid() && !hasLastHeader && numElements == old(numElements)
      ensures FreeChunkStep(old(chunks), old(tailIdx), chunks, tailIdx, ChunkCapacityFor(chunkCapacity))
      ensures Elements() == old(Elements())
    {
      var cc := ChunkCapacityFor(chunkCapacity);
      ghost var cs, n, hl := chunks, numElements, hasLastHeader;
      hasLastHeader := false;
      if chunks == [] {
        chunks, tailIdx := [EmptyChunk(cc)], 0;
      } else {
        var t := tailIdx;
        var found := false;
        while !found && t + 1 < |chunks|
          invariant tailIdx <= t < |cs|
          invariant forall i :: tailIdx < i < t ==> cs[i].cap < cc
          invariant found ==> tailIdx < t && cs[t].cap >= cc
          invariant !found && tailIdx < t ==> cs[t].cap < cc
          decreases |cs| - t, if found then 0 else 1
        {
          t := t + 1;
          assert cs[t].usedCap == 0 by {
            assert ChunkOk(cs[t], headerSize, align);
          }
          found := chunks[t].cap >= cc;
        }
        if found {
          tailIdx := t;
        } else {
          chunks, tailIdx := chunks + [EmptyChunk(cc)], t + 1;
        }
      }
      FreeChunkValid(cs, old(tailIdx), n, hl, cc);
    }

    /** The container after `getFreeChunk` has moved the tail. */
    lemma {:induction false} FreeChunkValid(cs: seq<ChunkState>, t: nat, n: nat, hasLast: bool, cc: nat)
      requires Params() && StateOk(cs, t, n, hasLast, headerSize, align)
      requires FreeChunkStep(cs, t, chunks, tailIdx, cc) && numElements == n && !hasLastHeader
      ensures Valid() && Elements() == ElementsOf(cs)
    {
      FreeChunkKeepsState(cs, t, n, hasLast, chunks, tailIdx, cc, headerSize, align);
    }

    /**
     * `getSpace`, with what the caller places behind the header: make room for a header of
     * `sizeof(Header) + size` bytes, write it at the end of the tail and make it the last header.
     * `mid` is the chain just before the header is written.
     */
    method GetSpace(size: nat, what: Payload) returns (p: Ptr, ghost mid: seq<ChunkState>)
      requires Valid()
      modifies this
      ensures oobData == old(oobData)
      ensures SpaceStep(old(chunks), old(tailIdx), mid, tailIdx, headerSize + size) && tailIdx < |mid|
      ensures chunks == mid[tailIdx := Push(mid[tailIdx], Unit(headerSize + size, what))]
      ensures hasLastHeader && numElements == old(numElements)
      ensures p == Ptr(tailIdx, mid[tailIdx].usedCap + headerSize)
    {
      var total := headerSize + size;
      if chunks == [] {
        GetFreeChunk(Max(total, InitialChunkCapacity()));
      } else if chunks[tailIdx].usedCap + total > chunks[tailIdx].cap {
        GetFreeChunk(Max(total, chunks[tailIdx].cap));
      }
      mid := chunks;
      var c := chunks[tailIdx];
      p := Ptr(tailIdx, c.usedCap + headerSize);
      chunks := chunks[tailIdx := Push(c, Unit(total, what))];
      hasLastHeader := true;
    }

    /**
     * `emplace_back`: construct an object of `size` bytes (a multiple of the alignment, as the
     * size of any type aligned like the base type is) behind a new header and count it. The
     * object lands on an aligned offset, and no header written before moves.
     */
    method EmplaceBack(obj: int, size: nat) returns (p: Ptr)
      requires Valid() && Math.Aligned(size, align)
      modifies this
      ensures oobData == old(oobData)
      ensures Valid() && Elements() == old(Elements()) + [Object(obj)] && Size() == old(Size()) + 1
      ensures p.chunk == tailIdx < |chunks| && Math.Aligned(p.offset, align) && p.offset + size == chunks[tailIdx].usedCap
      ensures NeverMoved(old(chunks), chunks)
    {
      ghost var cs, t, n, hl := chunks, tailIdx, numElements, hasLastHeader;
      ghost var mid;
      p, mid := GetSpace(size, Object(obj));
      numElements := numElements + 1;
      assert Valid() && Elements() == ElementsOf(cs) + [Object(obj)] by {
        EmplaceKeepsState(cs, t, n, hl, mid, size, obj);
      }
      assert p.chunk == tailIdx < |chunks| && Math.Aligned(p.offset, align) && p.offset + size == chunks[tailIdx].usedCap
             && NeverMoved(cs, chunks) by {
        EmplacePlaced(cs, t, n, hl, mid, size, obj, p);
      }
    }

    /** The container after `emplace_back`'s header and object are written behind the step of `getSpace`. */
    lemma {:induction false} EmplaceKeepsState(cs: seq<ChunkState>, t: nat, n: nat, hasLast: bool, mid: seq<ChunkState>,
                                               size: nat, obj: int)
      requires Params() && StateOk(cs, t, n, hasLast, headerSize, align) && Math.Aligned(size, align)
      requires SpaceStep(cs, t, mid, tailIdx, headerSize + size) && tailIdx < |mid|
      requires chunks == mid[tailIdx := Push(mid[tailIdx], Unit(headerSize + size, Object(obj)))]
      requires numElements == n + 1 && hasLastHeader
      ensures Valid() && Elements() == ElementsOf(cs) + [Object(obj)]
    {
      var u := Unit(headerSize + size, Object(obj));
      assert StateOk(mid, tailIdx, n, mid[tailIdx].units != [], headerSize, align) && ElementsOf(mid) == ElementsOf(cs)
             && mid[tailIdx].usedCap + u.stride <= mid[tailIdx].cap by {
        SpaceStepKeepsState(cs, t, n, hasLast, mid, tailIdx, u.stride);
      }
      Math.AlignedAdd(headerSize, size, align);
      PushKeepsState(mid, tailIdx, n, mid[tailIdx].units != [], u, headerSize, align);
    }

    /** Where `emplace_back` puts the object: on an aligned offset, right before the end of the used part. */
    lemma {:induction false} EmplacePlaced(cs: seq<ChunkState>, t: nat, n: nat, hasLast: bool, mid: seq<ChunkState>,
                                           size: nat, obj: int, p: Ptr)
      requires Params() && StateOk(cs, t, n, hasLast, headerSize, align)
      requires SpaceStep(cs, t, mid, tailIdx, headerSize + size) && tailIdx < |mid|
      requires chunks == mid[tailIdx := Push(mid[tailIdx], Unit(headerSize + size, Object(obj)))]
      requires p == Ptr(tailIdx, mid[tailIdx].usedCap + headerSize)
      ensures p.chunk == tailIdx < |chunks| && Math.Aligned(p.offset, align) && p.offset + size == chunks[tailIdx].usedCap
      ensures NeverMoved(cs, chunks)
    {
      SpaceStepKeepsState(cs, t, n, hasLast, mid, tailIdx, headerSize + size);
      assert ChunkOk(mid[tailIdx], headerSize, align);
      NextHeaderAligned(mid[tailIdx], headerSize, align, p.offset);
      PushNeverMoves(cs, mid, tailIdx, Unit(headerSize + size, Object(obj)));
    }

    /** Whether `reserveOOB` adds `k` aligned bytes to the stride of the last header. */
    ghost predicate MergesOob(cs: seq<ChunkState>, t: nat, hasLast: bool, k: nat)
    {
      hasLast && t < |cs| && cs[t].usedCap + k <= cs[t].cap
    }

    /** `size` rounded up to `alignof(T)`. */
    function AlignedSize(size: nat): nat
    {
      Math.RoundUpToMultipleOf(size, align)
    }

    /** The first branch of `reserveOOB`: `k` aligned bytes added to the last header's stride. */
    method GrowLast(k: nat) returns (p: Ptr)
      requires Valid() && MergesOob(chunks, tailIdx, hasLastHeader, k) && Math.Aligned(k, align)
      modifies this
      ensures oobData == old(oobData)
      ensures Valid() && Elements() == old(Elements()) && numElements == old(numElements)
      ensures tailIdx == old(tailIdx) && chunks == old(chunks)[tailIdx := Grow(old(chunks)[tailIdx], k)]
      ensures p.chunk == tailIdx && Math.Aligned(p.offset, align) && p.offset + k == chunks[tailIdx].usedCap
      ensures NeverMoved(old(chunks), chunks)
    {
      ghost var cs, n := chunks, numElements;
      var c := chunks[tailIdx];
      p := Ptr(tailIdx, c.usedCap);
      chunks := chunks[tailIdx := Grow(c, k)];
      GrowKeepsState(cs, tailIdx, n, k, headerSize, align);
      GrowNeverMoves(cs, tailIdx, k);
    }

    /**
     * The second branch of `reserveOOB`: `k` aligned bytes behind a header of their own, which
     * lands at the start of an empty tail and is flagged so that iteration skips it.
     */
    method OobHeader(k: nat) returns (p: Ptr)
      requires Valid() && !MergesOob(chunks, tailIdx, hasLastHeader, k) && Math.Aligned(k, align)
      modifies this
      ensures oobData == old(oobData)
      ensures Valid() && Elements() == old(Elements()) && numElements == old(numElements)
      ensures p.chunk == tailIdx < |chunks| && p.offset == headerSize && p.offset + k == chunks[tailIdx].usedCap
      ensures chunks[tailIdx] == OobChunk(chunks[tailIdx].cap, headerSize + k)
      ensures SpaceStep(old(chunks), old(tailIdx), chunks[tailIdx := EmptyChunk(chunks[tailIdx].cap)], tailIdx, headerSize + k)
      ensures NeverMoved(old(chunks), chunks)
    {
      ghost var cs, t, n, hl := chunks, tailIdx, numElements, hasLastHeader;
      ghost var mid;
      p, mid := GetSpace(k, RawBytes);
      ghost var written := chunks;
      chunks := chunks[tailIdx := chunks[tailIdx].(skipFirstHeader := true)];
      OobHeaderKeepsState(cs, t, n, hl, mid, written, k);
      OobHeaderPlaced(cs, t, n, hl, mid, written, k, p);
    }

    /** When the OOB bytes do not merge into the last header, `getSpace` leaves an empty tail. */
    lemma {:induction false} OobTailEmpty(cs: seq<ChunkState>, t: nat, n: nat, hasLast: bool, mid: seq<ChunkState>, mt: nat, k: nat)
      requires StateOk(cs, t, n, hasLast, headerSize, align) && !MergesOob(cs, t, hasLast, k)
      requires SpaceStep(cs, t, mid, mt, headerSize + k)
      ensures mt < |mid| && cs <= mid
      ensures mid[mt] == EmptyChunk(mid[mt].cap) && headerSize + k <= mid[mt].cap
    {
      SpaceStepKeepsState(cs, t, n, hasLast, mid, mt, headerSize + k);
      if Fits(cs, t, headerSize + k) {
        assert !hasLast;
      }
      assert mid[mt].units == [];
      assert ChunkOk(mid[mt], headerSize, align);
    }

    /** The container after the OOB header is written behind the step of `getSpace` and flagged. */
    lemma {:induction false} OobHeaderKeepsState(cs: seq<ChunkState>, t: nat, n: nat, hasLast: bool, mid: seq<ChunkState>, written: seq<ChunkState>, k: nat)
      requires Params() && StateOk(cs, t, n, hasLast, headerSize, align) && Math.Aligned(k, align)
      requires !MergesOob(cs, t, hasLast, k)
      requires SpaceStep(cs, t, mid, tailIdx, headerSize + k) && tailIdx < |mid|
      requires written == mid[tailIdx := Push(mid[tailIdx], Unit(headerSize + k, RawBytes))]
      requires chunks == written[tailIdx := written[tailIdx].(skipFirstHeader := true)]
      requires numElements == n && hasLastHeader
      ensures Valid() && Elements() == ElementsOf(cs)
    {
      assert StateOk(mid, tailIdx, n, false, headerSize, align) && ElementsOf(mid) == ElementsOf(cs)
             && mid[tailIdx] == EmptyChunk(mid[tailIdx].cap) && headerSize + k <= mid[tailIdx].cap by {
        SpaceStepKeepsState(cs, t, n, hasLast, mid, tailIdx, headerSize + k);
        OobTailEmpty(cs, t, n, hasLast, mid, tailIdx, k);
      }
      Math.AlignedAdd(headerSize, k, align);
      OobFill(mid, tailIdx, n, headerSize + k, written, chunks, headerSize, align);
    }

    /** Where that OOB header lands: at the start of the tail, which holds nothing else. */
    lemma {:induction false} OobHeaderPlaced(cs: seq<ChunkState>, t: nat, n: nat, hasLast: bool, mid: seq<ChunkState>, written: seq<ChunkState>, k: nat, p: Ptr)
      requires Params() && StateOk(cs, t, n, hasLast, headerSize, align) && Math.Aligned(k, align)
      requires !MergesOob(cs, t, hasLast, k)
      requires SpaceStep(cs, t, mid, tailIdx, headerSize + k) && tailIdx < |mid|
      requires written == mid[tailIdx := Push(mid[tailIdx], Unit(headerSize + k, RawBytes))]
      requires chunks == written[tailIdx := written[tailIdx].(skipFirstHeader := true)]
      requires p == Ptr(tailIdx, mid[tailIdx].usedCap + headerSize)
      ensures p.chunk == tailIdx < |chunks| && p.offset == headerSize && p.offset + k == chunks[tailIdx].usedCap
      ensures chunks[tailIdx] == OobChunk(chunks[tailIdx].cap, headerSize + k)
      ensures SpaceStep(cs, t, chunks[tailIdx := EmptyChunk(chunks[tailIdx].cap)], tailIdx, headerSize + k)
      ensures NeverMoved(cs, chunks)
    {
      OobTailEmpty(cs, t, n, hasLast, mid, tailIdx, k);
      OobWritten(mid, tailIdx, headerSize + k, written, chunks);
      FillNeverMoves(cs, mid, tailIdx, chunks[tailIdx]);
    }

    /**
     * `reserveOOB`: nothing for 0 bytes; otherwise the size rounded up to the alignment is added
     * to the last header's stride when it fits behind it, else it is placed behind a header of
     * its own at the start of a tail whose first header iteration skips. The elements stay as
     * they are, and no header written before moves.
     */
    method ReserveOOB(size: nat) returns (p: Option<Ptr>)
      requires Valid()
      modifies this
      ensures oobData == old(oobData)
      ensures Valid() && Elements() == old(Elements()) && Size() == old(Size())
      ensures size == 0 ==> p == None && chunks == old(chunks) && tailIdx == old(tailIdx) && hasLastHeader == old(hasLastHeader)
      ensures size > 0 ==> p.Some? && p.value.chunk == tailIdx < |chunks| && Math.Aligned(p.value.offset, align)
                           && p.value.offset + AlignedSize(size) == chunks[tailIdx].usedCap
      ensures size > 0 && MergesOob(old(chunks), old(tailIdx), old(hasLastHeader), AlignedSize(size)) ==>
                tailIdx == old(tailIdx) && chunks == old(chunks)[tailIdx := Grow(old(chunks)[tailIdx], AlignedSize(size))]
      ensures size > 0 && !MergesOob(old(chunks), old(tailIdx), old(hasLastHeader), AlignedSize(size)) ==>
                chunks[tailIdx] == OobChunk(chunks[tailIdx].cap, headerSize + AlignedSize(size))
                && SpaceStep(old(chunks), old(tailIdx), chunks[tailIdx := EmptyChunk(chunks[tailIdx].cap)], tailIdx, headerSize + AlignedSize(size))
      ensures NeverMoved(old(chunks), chunks)
    {
      if size == 0 {
        return None;
      }
      var alignedSize := AlignedSize(size);
      assert Math.Aligned(alignedSize, align) by {
        Math.AlignedIsMod(alignedSize, align);
      }
      var q;
      if hasLastHeader && chunks[tailIdx].usedCap + alignedSize <= chunks[tailIdx].cap {
        q := GrowLast(alignedSize);
      } else {
        q := OobHeader(alignedSize);
        assert Math.Aligned(q.offset, align);
      }
      p := Some(q);
    }

    /**
     * `pushOOB`: reserve room for the bytes as `reserveOOB` does and copy them there; nothing
     * is reserved or copied for no bytes.
     */
    method PushOOB(data: seq<bv8>) returns (p: Option<Ptr>)
      requires Valid()
      modifies this
      ensures Valid() && Elements() == old(Elements()) && Size() == old(Size())
      ensures p.None? <==> data == []
      ensures data == [] ==> chunks == old(chunks) && oobData == old(oobData)
      ensures data != [] ==> oobData == old(oobData) + [OobCopy(p.value, data)]
                             && p.value.chunk == tailIdx < |chunks| && Math.Aligned(p.value.offset, align)
                             && p.value.offset + |data| <= chunks[tailIdx].usedCap
      ensures NeverMoved(old(chunks), chunks)
    {
      p := ReserveOOB(|data|);
      if p.None? {
        return;
      }
      oobData := oobData + [OobCopy(p.value, data)];
    }

    /**
     * `pushOOBString`, for a `std::string_view` and for a `std::string`: the characters followed
     * by a null terminator are stored out of band; the view returned covers the characters only.
     */
    method PushOOBString(str: seq<bv8>) returns (p: Ptr, len: nat)
      requires Valid()
      modifies this
      ensures Valid() && Elements() == old(Elements()) && Size() == old(Size())
      ensures len == |str| && oobData == old(oobData) + [OobCopy(p, str + [0])]
      ensures p.chunk == tailIdx < |chunks| && Math.Aligned(p.offset, align) && p.offset + |str| < chunks[tailIdx].usedCap
      ensures NeverMoved(old(chunks), chunks)
    {
      var q := ReserveOOB(|str| + 1);
      p, len := q.value, |str|;
      oobData := oobData + [OobCopy(p, str + [0])];
    }

    /**
     * `pushOOBString` for a C string: the characters up to and including the first null byte
     * are stored out of band, and a pointer to them is returned.
     */
    method PushOOBCString(str: seq<bv8>) returns (p: Ptr)
      requires Valid() && 0 in str
      modifies this
      ensures Valid() && Elements() == old(Elements()) && Size() == old(Size())
      ensures exists n :: 0 <= n < |str| && str[n] == 0 && (forall j :: 0 <= j < n ==> str[j] != 0)
                          && oobData == old(oobData) + [OobCopy(p, str[..n + 1])]
      ensures p.chunk == tailIdx < |chunks| && Math.Aligned(p.offset, align)
      ensures NeverMoved(old(chunks), chunks)
    {
      var n := StrLen(str);
      var q := PushOOB(str[..n + 1]);
      p := q.value;
    }

    /** `calcCapacity`: the bytes used and the bytes allocated, summed over the whole chain. */
    method CalcCapacity() returns (used: nat, total: nat)
      requires Valid()
      ensures used == UsedSum(chunks) && total == CapSum(chunks) && used <= total
    {
      used, total := 0, 0;
      var k := 0;
      while k < |chunks|
        invariant k <= |chunks|
        invariant used == UsedSum(chunks[..k]) && total == CapSum(chunks[..k])
      {
        assert chunks[..k + 1][..k] == chunks[..k];
        used := used + chunks[k].usedCap;
        total := total + chunks[k].cap;
        k := k + 1;
      }
      assert chunks[..k] == chunks;
      UsedWithinCap(chunks, headerSize, align);
    }

    /**
     * `clear`: destroy every element, in iteration order, and empty every chunk; the tail goes
     * back to the head. With a non-zero `resetToOneChunk`, the chain is then replaced by a single
     * fresh chunk, unless it already is one chunk of at least that many bytes.
     */
    method Clear(resetToOneChunk: nat) returns (destroyed: seq<Payload>)
      requires Valid()
      modifies this
      ensures oobData == [] && forall i :: 0 <= i < |chunks| ==> chunks[i].usedCap == 0
      ensures Valid() && Elements() == [] && Size() == 0 && !hasLastHeader && tailIdx == 0
      ensures destroyed == old(Elements())
      ensures resetToOneChunk == 0 || (|old(chunks)| == 1 && old(chunks)[0].cap >= resetToOneChunk) ==>
                chunks == ClearedAll(old(chunks))
      ensures resetToOneChunk != 0 && !(|old(chunks)| == 1 && old(chunks)[0].cap >= resetToOneChunk) ==>
                chunks == [EmptyChunk(ChunkCapacityFor(resetToOneChunk))]
    {
      ghost var cs := chunks;
      destroyed := ClearChunks();
      tailIdx, hasLastHeader, numElements, oobData := 0, false, 0, [];
      ClearedAllOk(cs, headerSize, align);
      if resetToOneChunk != 0 {
        ResetChain(resetToOneChunk);
      }
    }

    /** The `resetToOneChunk` part of `clear`: an emptied chain is kept when it is one chunk big enough, else replaced by one. */
    method ResetChain(resetToOneChunk: nat)
      requires Valid() && numElements == 0 && tailIdx == 0 && !hasLastHeader
      requires forall i :: 0 <= i < |chunks| ==> chunks[i].usedCap == 0
      modifies this
      ensures oobData == old(oobData) && numElements == 0 && tailIdx == 0 && !hasLastHeader
      ensures Valid() && forall i :: 0 <= i < |chunks| ==> chunks[i].usedCap == 0
      ensures |old(chunks)| == 1 && old(chunks)[0].cap >= resetToOneChunk ==> chunks == old(chunks)
      ensures !(|old(chunks)| == 1 && old(chunks)[0].cap >= resetToOneChunk) ==>
                chunks == [EmptyChunk(ChunkCapacityFor(resetToOneChunk))]
    {
      if |chunks| == 1 && chunks[0].cap >= resetToOneChunk {
        return;
      }
      DeleteAllChunks();
      GetFreeChunk(resetToOneChunk);
    }

    /** The loop of `clear` over the chain: every chunk, from the head on, has its objects destroyed and is emptied. */
    method ClearChunks() returns (destroyed: seq<Payload>)
      requires Params() && ModelOk(chunks, tailIdx, headerSize, align)
      modifies this`chunks
      ensures chunks == ClearedAll(old(chunks)) && destroyed == old(Elements())
    {
      ghost var cs := chunks;
      var k := 0;
      destroyed := [];
      while k < |chunks|
        invariant k <= |chunks| == |cs|
        invariant forall i :: 0 <= i < k ==> chunks[i] == Cleared(cs[i])
        invariant forall i :: k <= i < |cs| ==> chunks[i] == cs[i]
        invariant destroyed == ElementsOf(cs[..k])
      {
        assert ChunkOk(cs[k], headerSize, align);
        var d := DestroyObjects(chunks[k], headerSize, align);
        ElementsOfPrefix(cs, k);
        destroyed := destroyed + d;
        chunks := chunks[k := Cleared(chunks[k])];
        k := k + 1;
      }
      assert cs[..k] == cs;
      assert chunks == ClearedAll(cs);
    }

    /**
     * `deleteAllChunks`: free the chain from the head on. The container holds no element and,
     * as each chunk's destructor demands, no chunk has a used byte.
     */
    method DeleteAllChunks()
      requires Valid() && numElements == 0
      requires forall i :: 0 <= i < |chunks| ==> chunks[i].usedCap == 0
      modifies this
      ensures oobData == old(oobData)
      ensures Valid() && chunks == [] && !hasLastHeader && numElements == 0
    {
      while chunks != []
        invariant forall i :: 0 <= i < |chunks| ==> chunks[i].usedCap == 0
        invariant numElements == 0 && oobData == old(oobData)
        decreases |chunks|
      {
        assert chunks[0].usedCap == 0;
        chunks := chunks[1..];
      }
      tailIdx, hasLastHeader := 0, false;
    }

    /** The same element type: equal header size, alignment and base size. */
    predicate SameLayout(other: PolyChunkVector)
    {
      other.headerSize == headerSize && other.align == align && other.elemSize == elemSize
    }

    /** `swap`: the two containers exchange their chains, tails, last headers and counts. */
    method Swap(other: PolyChunkVector)
      requires Valid() && other.Valid() && SameLayout(other)
      modifies this, other
      ensures Valid() && other.Valid()
      ensures chunks == old(other.chunks) && tailIdx == old(other.tailIdx) && hasLastHeader == old(other.hasLastHeader)
      ensures numElements == old(other.numElements) && oobData == old(other.oobData)
      ensures other.chunks == old(chunks) && other.tailIdx == old(tailIdx) && other.hasLastHeader == old(hasLastHeader)
      ensures other.numElements == old(numElements) && other.oobData == old(oobData)
      ensures Elements() == old(other.Elements()) && other.Elements() == old(Elements())
    {
      var cs, t, hl, n, od := chunks, tailIdx, hasLastHeader, numElements, oobData;
      chunks, tailIdx, hasLastHeader, numElements, oobData :=
        other.chunks, other.tailIdx, other.hasLastHeader, other.numElements, other.oobData;
      other.chunks, other.tailIdx, other.hasLastHeader, other.numElements, other.oobData := cs, t, hl, n, od;
    }

    /** The move constructor: an empty container swapped with `other`, which is left empty. */
    constructor Move(other: PolyChunkVector)
      requires other.Valid()
      modifies other
      ensures Valid() && SameLayout(other)
      ensures chunks == old(other.chunks) && tailIdx == old(other.tailIdx) && hasLastHeader == old(other.hasLastHeader)
      ensures numElements == old(other.numElements) && oobData == old(other.oobData)
      ensures other.Valid() && other.chunks == [] && other.Elements() == [] && other.oobData == []
    {
      headerSize, align, elemSize := other.headerSize, other.align, other.elemSize;
      chunks, tailIdx, hasLastHeader, numElements, oobData := [], 0, false, 0, [];
      new;
      Swap(other);
    }

    /**
     * Move assignment: `clear`, free every chunk, then swap with `other`, which is left empty.
     * Moving a container into itself leaves it empty.
     */
    method MoveAssign(other: PolyChunkVector) returns (destroyed: seq<Payload>)
      requires Valid() && other.Valid() && SameLayout(other)
      modifies this, other
      ensures destroyed == old(Elements()) && Valid() && other.Valid()
      ensures other != this ==> chunks == old(other.chunks) && tailIdx == old(other.tailIdx)
                                && hasLastHeader == old(other.hasLastHeader) && numElements == old(other.numElements)
                                && oobData == old(other.oobData)
      ensures other.chunks == [] && other.Elements() == [] && other.oobData == []
    {
      destroyed := Clear(0);
      DeleteAllChunks();
      Swap(other);
    }

    /** The destructor: `clear`, then free every chunk. */
    method Destroy() returns (destroyed: seq<Payload>)
      requires Valid()
      modifies this
      ensures destroyed == old(Elements()) && Valid() && chunks == [] && Elements() == [] && oobData == []
    {
      destroyed := Clear(0);
      DeleteAllChunks();
    }

    /** `end()`: the iterator with a null chunk. */
    function End(): Iter
    {
      Iter(None, 0)
    }

    /** `it` addresses the i-th header of chunk k. */
    ghost predicate At(it: Iter, k: nat, i: nat)
      reads this
    {
      it.chunk == Some(k) && k < |chunks| && i <= |chunks[k].units| && it.pos == SumStrides(chunks[k].units[..i])
    }

    /** `it` is at position (k, i), the end being at (|chunks|, 0). */
    ghost predicate Positioned(it: Iter, k: nat, i: nat)
      reads this
    {
      (it == End() && k == |chunks| && i == 0) || At(it, k, i)
    }

    /** `it` is on a header that iteration does not skip, with an element behind it. */
    ghost predicate OnElement(it: Iter, k: nat, i: nat)
      reads this
    {
      At(it, k, i) && i < |chunks[k].units| && FirstElem(chunks[k], i) == i
    }

    /** Chunk k exists and is laid out well. */
    ghost predicate ChunkWellFormed(k: nat)
      reads this
    {
      headerSize > 0 && align > 0 && k < |chunks| && ChunkOk(chunks[k], headerSize, align)
    }

    /**
     * `findValid`: from any position, move to the first header iteration does not skip, going
     * on to the next chunks past the used part, or to the end past the last chunk. What is
     * left to iterate does not change.
     */
    method FindValid(it: Iter, ghost k: nat, ghost i: nat) returns (r: Iter, ghost k2: nat, ghost i2: nat)
      requires Valid() && Positioned(it, k, i)
      ensures (r == End() && k2 == |chunks| && i2 == 0) || OnElement(r, k2, i2)
      ensures ElementsFrom(chunks, k2, i2) == ElementsFrom(chunks, k, i)
    {
      r, k2, i2 := it, k, i;
      var done := false;
      while !done
        invariant Positioned(r, k2, i2) && ElementsFrom(chunks, k2, i2) == ElementsFrom(chunks, k, i)
        invariant done ==> (r == End() && k2 == |chunks| && i2 == 0) || OnElement(r, k2, i2)
        decreases !done, Rank(k2, i2)
      {
        done, r, k2, i2 := FindStep(r, k2, i2);
      }
    }

    /** How far a position is from the end: two steps per chunk, one to skip a flagged first header. */
    ghost function Rank(k: nat, i: nat): int
      reads this
    {
      2 * (|chunks| - k) + (if i == 0 then 1 else 0)
    }

    /**
     * One round of `findValid`'s loop: stop at the end or on an element; otherwise skip the
     * flagged first header and, past the used part, go on to the next chunk.
     */
    method FindStep(r: Iter, ghost k: nat, ghost i: nat) returns (done: bool, r2: Iter, ghost k2: nat, ghost i2: nat)
      requires Valid() && Positioned(r, k, i)
      ensures Positioned(r2, k2, i2) && ElementsFrom(chunks, k2, i2) == ElementsFrom(chunks, k, i)
      ensures done ==> (r2 == End() && k2 == |chunks| && i2 == 0) || OnElement(r2, k2, i2)
      ensures !done ==> 0 <= Rank(k2, i2) < Rank(k, i)
    {
      if r.chunk == None {
        return true, r, k, i;
      }
      var c := chunks[r.chunk.value];
      assert ChunkWellFormed(k);
      r2, k2, i2 := r, k, i;
      if r.pos < c.usedCap {
        if r.pos > 0 || !c.skipFirstHeader {
          StopsOnElement(r, k, i);
          return true, r, k, i;
        }
        r2 := SkipFirstHeader(r, k, i);
        i2 := 1;
      }
      if r2.pos >= c.usedCap {
        r2 := NextChunk(r2, k, i2);
        k2, i2 := k + 1, 0;
      }
      done := false;
    }

    /** A header inside the used part that is not the skipped first one is an element. */
    lemma {:induction false} StopsOnElement(r: Iter, k: nat, i: nat)
      requires ChunkWellFormed(k) && At(r, k, i) && r.pos < chunks[k].usedCap && (r.pos > 0 || !chunks[k].skipFirstHeader)
      ensures OnElement(r, k, i)
    {
      OffsetInUse(chunks[k], i, headerSize, align);
    }

    /** `findValid` on the flagged first header of chunk k: step over it by its stride, skipping no element. */
    method SkipFirstHeader(r: Iter, ghost k: nat, ghost i: nat) returns (r2: Iter)
      requires ChunkWellFormed(k) && At(r, k, i) && r.pos < chunks[k].usedCap && r.pos == 0 && chunks[k].skipFirstHeader
      ensures i == 0 && r2.chunk == r.chunk && r2.pos == chunks[k].units[0].stride
      ensures At(r2, k, 1) && ElementsFrom(chunks, k, 1) == ElementsFrom(chunks, k, 0)
    {
      var c := chunks[r.chunk.value];
      OffsetInUse(c, i, headerSize, align);
      assert forall j :: 0 <= j < |c.units| ==> c.units[j].stride > 0;
      assert c.units[..0] == [];
      HeaderAtOffset(c.units, 0);
      OffsetStep(c.units, 0);
      r2 := Iter(r.chunk, r.pos + HeaderAt(c.units, r.pos).value.stride);
    }

    /** Past the used part of chunk k, iteration goes on at the start of the next chunk, or ends after the last. */
    method NextChunk(r: Iter, ghost k: nat, ghost i: nat) returns (r2: Iter)
      requires ChunkWellFormed(k) && At(r, k, i) && r.pos >= chunks[k].usedCap
      ensures r2.chunk == None ==> r2 == End() && k + 1 == |chunks|
      ensures r2.chunk != None ==> At(r2, k + 1, 0)
      ensures ElementsFrom(chunks, k + 1, 0) == ElementsFrom(chunks, k, i)
    {
      OffsetInUse(chunks[k], i, headerSize, align);
      ElementsFromNext(chunks, k, i);
      if r.chunk.value + 1 < |chunks| {
        assert chunks[k + 1].units[..0] == [];
        r2 := Iter(Some(r.chunk.value + 1), 0);
      } else {
        r2 := Iter(None, 0);
      }
    }

    /** `begin()`: the first element, or the end when there is none; iteration yields all the elements. */
    method Begin() returns (r: Iter, ghost k: nat, ghost i: nat)
      requires Valid()
      ensures (r == End() && k == |chunks| && i == 0) || OnElement(r, k, i)
      ensures ElementsFrom(chunks, k, i) == Elements()
    {
      var head := if chunks == [] then None else Some(0);
      assert chunks != [] ==> chunks[0].units[..0] == [];
      ElementsFromStart(chunks);
      r, k, i := FindValid(Iter(head, 0), 0, 0);
    }

    /** `operator*`: the element behind the header the iterator is on, an object. */
    method Deref(it: Iter, ghost k: nat, ghost i: nat) returns (obj: Payload)
      requires Valid() && OnElement(it, k, i)
      ensures ElementsFrom(chunks, k, i) != [] && obj == ElementsFrom(chunks, k, i)[0] && obj.Object?
    {
      var c := chunks[it.chunk.value];
      assert ChunkOk(c, headerSize, align) && ChunkObjects(c);
      assert forall j :: 0 <= j < |c.units| ==> c.units[j].stride > 0;
      HeaderAtOffset(c.units, i);
      ElementsFromStep(chunks, k, i);
      obj := HeaderAt(c.units, it.pos).value.payload;
    }

    /** `operator++`: past the header's stride, then on to the next element or the end; one element fewer is left. */
    method Next(it: Iter, ghost k: nat, ghost i: nat) returns (r: Iter, ghost k2: nat, ghost i2: nat)
      requires Valid() && OnElement(it, k, i)
      ensures (r == End() && k2 == |chunks| && i2 == 0) || OnElement(r, k2, i2)
      ensures ElementsFrom(chunks, k, i) != [] && ElementsFrom(chunks, k2, i2) == ElementsFrom(chunks, k, i)[1..]
    {
      var c := chunks[it.chunk.value];
      assert ChunkOk(c, headerSize, align);
      assert forall j :: 0 <= j < |c.units| ==> c.units[j].stride > 0;
      HeaderAtOffset(c.units, i);
      OffsetStep(c.units, i);
      ElementsFromStep(chunks, k, i);
      r, k2, i2 := FindValid(Iter(it.chunk, it.pos + HeaderAt(c.units, it.pos).value.stride), k, i + 1);
    }

    /** `operator==` compares chunk and offset: two iterators on elements are equal exactly when they are on the same header. */
    lemma {:induction false} SamePosition(a: Iter, k: nat, i: nat, b: Iter, k2: nat, i2: nat)
      requires Valid() && OnElement(a, k, i) && OnElement(b, k2, i2)
      ensures a == b <==> k == k2 && i == i2
    {
      if k == k2 && i != i2 {
        var c := chunks[k];
        assert ChunkOk(c, headerSize, align);
        if i < i2 {
          OffsetsIncrease(c.units, i, i2);
        } else {
          OffsetsIncrease(c.units, i2, i);
        }
      }
    }
  }
}
