/**
 * `VSOVector<BaseT>`: objects of variable size laid out back to back in one growable byte
 * buffer. Every object sits in a block that starts with a 32-bit `size` header, the distance
 * to the next block; out-of-band (OOB) data is appended to the block of the last object, so
 * iteration steps over it, or, before the first object, simply precedes it. Users hold `Ref`s,
 * byte offsets into the buffer, which survive reallocation.
 *
 * The buffer is modelled by what has been written into its used part: the headers, keyed by
 * their offset, each with its block size and the object behind it (an opaque value), and the
 * OOB bytes copied in, keyed by offset. A ghost sequence lists the offsets of the objects in
 * the order they were pushed.
 */
module VSOVectors {
  import Math

  /** `std::numeric_limits<uint32_t>::max()`, the value of an unset `Ref`. */
  const InvalidValue: nat := 0xFFFF_FFFF

  /** `sizeof(SizeType)`: the header in front of every object, and the OOB granularity. */
  const SizeTypeSize: nat := 4

  /** `Ref`: a byte offset into the buffer, or `InvalidValue` when unset. */
  datatype Ref = Ref(pos: nat)
  {
    /** `isSet`: set, even when it is the end. */
    predicate IsSet()
    {
      pos != InvalidValue
    }
  }

  /** A default-constructed `Ref`. */
  function UnsetRef(): (r: Ref)
    ensures !r.IsSet()
  {
    Ref(InvalidValue)
  }

  /** `Iterator`: a pointer into the buffer, as an offset from its start. */
  datatype Iterator = Iterator(pos: nat)

  /** The `size` field of an `ObjWrapper` and the object stored after it. */
  datatype Header = Header(size: nat, obj: int)

  /**
   * The block size `push_back` writes for an `ObjWrapper<T>` of `wrapSize` bytes aligned to
   * `wrapAlign`: the wrapper alone, or with `extraBytes` more rounded up to the alignment.
   */
  function BlockSize(wrapSize: nat, wrapAlign: nat, extraBytes: nat): nat
    requires wrapAlign > 0
  {
    if extraBytes == 0 then wrapSize
    else
      var s := wrapSize + extraBytes;
      var remainder := s % wrapAlign;
      s + (if remainder != 0 then wrapAlign - remainder else 0)
  }

  /** The block is the least multiple of the alignment that holds the wrapper and the extra bytes. */
  lemma {:induction false} BlockSizeRoundsUp(wrapSize: nat, wrapAlign: nat, extraBytes: nat)
    requires wrapAlign > 0 && wrapSize % wrapAlign == 0
    ensures BlockSize(wrapSize, wrapAlign, extraBytes) == Math.RoundUpToMultipleOf(wrapSize + extraBytes, wrapAlign)
  {
    var s := wrapSize + extraBytes;
    var b := BlockSize(wrapSize, wrapAlign, extraBytes);
    var r := Math.RoundUpToMultipleOf(s, wrapAlign);
    assert b % wrapAlign == 0 && s <= b < s + wrapAlign by {
      if extraBytes != 0 {
        var q := s / wrapAlign;
        assert s == q * wrapAlign + s % wrapAlign;
        if s % wrapAlign != 0 {
          assert b == (q + 1) * wrapAlign;
          Math.MulMod(q + 1, wrapAlign);
        }
      }
    }
    MultipleInWindow(s, wrapAlign, b, r);
  }

  /** Two multiples of a in [s, s + a) are equal. */
  lemma {:induction false} MultipleInWindow(s: nat, a: nat, b: nat, r: nat)
    requires a > 0 && b % a == 0 && r % a == 0 && s <= b < s + a && s <= r < s + a
    ensures b == r
  {
    Math.AlignedIsMod(b, a);
    Math.AlignedIsMod(r, a);
    AlignedInWindow(s, a, b, r);
  }

  lemma {:induction false} AlignedInWindow(s: nat, a: nat, b: nat, r: nat)
    requires a > 0 && Math.Aligned(b, a) && Math.Aligned(r, a) && s <= b < s + a && s <= r < s + a
    ensures b == r
    decreases b
  {
    if b >= a && r >= a {
      AlignedInWindow(if s >= a then s - a else 0, a, b - a, r - a);
    }
  }

  /**
   * The capacity `grow` chooses, in unbounded arithmetic: the power of two at or above the
   * bytes in use plus the bytes required, so the required bytes always fit.
   */
  function GrowCapacity(used: nat, required: nat): (c: nat)
    requires used < 0x1_0000_0000 && required < 0x1_0000_0000
    ensures c >= used + required && Math.IsPow2(c)
    ensures used + required >= 1 ==> c < 2 * (used + required)
  {
    SizeTypeSumFits(used + required);
    Math.RoundPow2(used + required)
  }

  /**
   * `grow`'s capacity as written: the sum of two `uint32_t`s wraps, and the `size_t` returned
   * by `round_pow2` is truncated to `uint32_t`.
   */
  function GrowCapacityAsWritten(used: nat, required: nat): nat
    requires used < 0x1_0000_0000 && required < 0x1_0000_0000
  {
    SizeTypeSumFits((used + required) % 0x1_0000_0000);
    Math.RoundPow2((used + required) % 0x1_0000_0000) % 0x1_0000_0000
  }

  lemma {:induction false} Pow2Add(a: nat, b: nat)
    ensures Math.Pow2(a + b) == Math.Pow2(a) * Math.Pow2(b)
  {
    if a > 0 {
      Pow2Add(a - 1, b);
    }
  }

  lemma {:induction false} Pow2Constants()
    ensures Math.Pow2(31) == 0x8000_0000 && Math.Pow2(32) == 0x1_0000_0000 && Math.Pow2(33) == 0x2_0000_0000
  {
    assert Math.Pow2(4) == 16;
    Pow2Add(4, 4);
    Pow2Add(8, 8);
    Pow2Add(16, 16);
    assert Math.Pow2(32) == 2 * Math.Pow2(31);
  }

  /** The sum of two `uint32_t`s is far below 2^63, so `round_pow2` returns on it. */
  lemma {:induction false} SizeTypeSumFits(n: nat)
    requires n < 0x2_0000_0000
    ensures n <= Math.SizeMaxHalf
  {
    Pow2Constants();
    Math.Pow2Monotonic(33, 63);
  }

  /**
   * Once more than 2 GiB are needed (2^31 in use and 8 more required, say), `round_pow2` gives
   * 2^32, which the cast to `uint32_t` turns into 0: the new buffer is smaller than the bytes
   * copied into it, where the unbounded capacity is 2^32.
   */
  lemma {:induction false} GrowAsWrittenTruncates(used: nat, required: nat)
    requires 0x8000_0000 < used + required < 0x1_0000_0000
    ensures GrowCapacityAsWritten(used, required) == 0 < used + required
    ensures GrowCapacity(used, required) == 0x1_0000_0000
  {
    var n := used + required;
    assert n % 0x1_0000_0000 == n;
    SizeTypeSumFits(n);
    var r := Math.RoundPow2(n);
    Pow2Constants();
    assert r <= 0x1_0000_0000;
    Math.IsPow2IsPow2OfLog(r);
    var l := Math.Log2Floor(r);
    if l <= 31 {
      Math.Pow2Monotonic(l, 31);
    } else if l >= 33 {
      Math.Pow2Monotonic(33, l);
    }
    assert r == 0x1_0000_0000;
  }

  /** Where iteration is at step j of the offsets o: the j-th object, or the end `used`. */
  ghost function PosIn(o: seq<nat>, used: nat, j: nat): nat
  {
    if j < |o| then o[j] else used
  }

  /** Where the block of the j-th object ends. */
  ghost function NextIn(o: seq<nat>, used: nat, j: nat): nat
  {
    PosIn(o, used, j + 1)
  }

  /**
   * The headers form the chain of blocks the objects were pushed in: a header at each object's
   * offset and nowhere else, each block non-empty and ending where the next begins, the last
   * one at the end of the used part.
   */
  ghost predicate ChainOk(o: seq<nat>, h: map<nat, Header>, used: nat)
  {
    && (forall p :: p in h <==> p in o)
    && (forall j :: 0 <= j < |o| ==> o[j] in h && h[o[j]].size > 0)
    && (forall j {:trigger NextIn(o, used, j)} :: 0 <= j < |o| ==> o[j] + h[o[j]].size == NextIn(o, used, j))
  }

  /** The objects behind the headers at the offsets o. */
  ghost function ObjectsOf(o: seq<nat>, h: map<nat, Header>): seq<int>
    requires forall j :: 0 <= j < |o| ==> o[j] in h
  {
    seq(|o|, j requires 0 <= j < |o| && o[j] in h => h[o[j]].obj)
  }

  /** Every object lies before the end of the used part. */
  lemma {:induction false} BelowUsed(o: seq<nat>, h: map<nat, Header>, used: nat, j: nat)
    requires ChainOk(o, h, used) && j < |o|
    ensures o[j] < used
    decreases |o| - j
  {
    assert o[j] < NextIn(o, used, j);
    if j + 1 < |o| {
      BelowUsed(o, h, used, j + 1);
    }
  }

  /** Later objects lie further on. */
  lemma {:induction false} Increasing(o: seq<nat>, h: map<nat, Header>, used: nat, i: nat, j: nat)
    requires ChainOk(o, h, used) && i < j < |o|
    ensures o[i] < o[j]
    decreases j - i
  {
    assert o[i] < NextIn(o, used, i);
    if i + 1 < j {
      Increasing(o, h, used, i + 1, j);
    }
  }

  /** Iteration is at the end exactly after the last object. */
  lemma {:induction false} AtEndIffDone(o: seq<nat>, h: map<nat, Header>, used: nat, j: nat)
    requires ChainOk(o, h, used) && j <= |o|
    ensures PosIn(o, used, j) == used <==> j == |o|
  {
    if j < |o| {
      BelowUsed(o, h, used, j);
    }
  }

  /** A block appended at the end of the used part extends the chain by one object. */
  lemma {:induction false} PushChain(o: seq<nat>, h: map<nat, Header>, used: nat, size: nat, obj: int)
    requires ChainOk(o, h, used) && size > 0
    ensures ChainOk(o + [used], h[used := Header(size, obj)], used + size)
    ensures ObjectsOf(o + [used], h[used := Header(size, obj)]) == ObjectsOf(o, h) + [obj]
  {
    var o2, h2, used2 := o + [used], h[used := Header(size, obj)], used + size;
    assert used !in h by {
      if used in h {
        var j :| 0 <= j < |o| && o[j] == used;
        BelowUsed(o, h, used, j);
      }
    }
    forall j | 0 <= j < |o2|
      ensures o2[j] + h2[o2[j]].size == NextIn(o2, used2, j)
    {
      if j < |o| {
        assert o2[j] == o[j] != used && o[j] + h[o[j]].size == NextIn(o, used, j);
      }
    }
    assert forall p :: p in h2 <==> p in o2;
  }

  /** The bytes `oob_push_back_empty` reserves for `count` items of `itemSize` bytes: rounded up to the header size. */
  function OobSize(count: nat, itemSize: nat): (n: nat)
    ensures count * itemSize <= n < count * itemSize + SizeTypeSize && n % SizeTypeSize == 0
  {
    Math.RoundUpToMultipleOf(count * itemSize, SizeTypeSize)
  }

  /** The headers with `extra` bytes added to the size in the one at offset p. */
  function Extended(h: map<nat, Header>, p: nat, extra: nat): map<nat, Header>
    requires p in h
  {
    h[p := h[p].(size := h[p].size + extra)]
  }

  /** Extending the last block by `extra` bytes, and the used part with it, keeps the chain. */
  lemma {:induction false} ExtendChain(o: seq<nat>, h: map<nat, Header>, used: nat, extra: nat, h2: map<nat, Header>)
    requires ChainOk(o, h, used) && o != []
    requires h2 == Extended(h, o[|o| - 1], extra)
    ensures ChainOk(o, h2, used + extra)
  {
    var l := o[|o| - 1];
    assert forall p :: p in h2 <==> p in o;
    forall j | 0 <= j < |o|
      ensures o[j] in h2 && h2[o[j]].size > 0
    {
    }
    forall j | 0 <= j < |o|
      ensures o[j] + h2[o[j]].size == NextIn(o, used + extra, j)
    {
      assert o[j] + h[o[j]].size == NextIn(o, used, j);
      if j + 1 < |o| {
        Increasing(o, h, used, j, |o| - 1);
        assert h2[o[j]] == h[o[j]];
        assert NextIn(o, used + extra, j) == o[j + 1] == NextIn(o, used, j);
      } else {
        assert h2[l].size == h[l].size + extra;
        assert NextIn(o, used + extra, j) == used + extra && NextIn(o, used, j) == used;
      }
    }
  }

  /** Changing the size in a header keeps the objects. */
  lemma {:induction false} ResizeKeepsObjects(o: seq<nat>, h: map<nat, Header>, p: nat, size: nat, h2: map<nat, Header>)
    requires (forall j :: 0 <= j < |o| ==> o[j] in h) && p in h && h2 == h[p := h[p].(size := size)]
    ensures ObjectsOf(o, h2) == ObjectsOf(o, h)
  {
  }

  class VSOVector {
    var capacity: nat
    var usedCapacity: nat
    /** Whether a buffer has been allocated (`m_data` is not null). */
    var hasData: bool
    var numElements: nat
    var first: Ref
    var last: Ref
    /** The headers written in the used part of the buffer, by offset. */
    var headers: map<nat, Header>
    /** The OOB bytes copied into the used part of the buffer, by offset. */
    var oobData: map<nat, seq<bv8>>
    /** The offsets of the objects, in the order they were pushed. */
    ghost var order: seq<nat>

    ghost predicate Valid()
      reads this
    {
      && usedCapacity <= capacity && usedCapacity < InvalidValue
      && (!hasData ==> capacity == 0)
      && numElements == |order|
      && ChainOk(order, headers, usedCapacity)
      && first == (if order == [] then UnsetRef() else Ref(order[0]))
      && last == (if order == [] then UnsetRef() else Ref(order[|order| - 1]))
      && (forall p :: p in oobData ==> p + |oobData[p]| <= usedCapacity)
    }

    /** The objects, in iteration order. */
    ghost function Objects(): seq<int>
      requires Valid()
      reads this
    {
      ObjectsOf(order, headers)
    }

    /** Where iteration is after j objects. */
    ghost function PosOf(j: nat): nat
      reads this
    {
      PosIn(order, usedCapacity, j)
    }

    /** The default constructor: no buffer. */
    constructor()
      ensures Valid() && !hasData && capacity == 0 && usedCapacity == 0 && Objects() == [] && oobData == map[]
    {
      capacity, usedCapacity, hasData, numElements := 0, 0, false, 0;
      first, last := UnsetRef(), UnsetRef();
      headers, oobData, order := map[], map[], [];
    }

    /** The constructor with a capacity: a buffer of that many bytes, nothing used. */
    constructor WithCapacity(capacity: nat)
      requires capacity <= InvalidValue
      ensures Valid() && hasData && this.capacity == capacity && usedCapacity == 0 && Objects() == [] && oobData == map[]
    {
      this.capacity, usedCapacity, hasData, numElements := capacity, 0, true, 0;
      first, last := UnsetRef(), UnsetRef();
      headers, oobData, order := map[], map[], [];
    }

    /** `getCapacity`. */
    function GetCapacity(): nat
      reads this
    {
      capacity
    }

    /** `getUsedCapacity`. */
    function GetUsedCapacity(): nat
      reads this
    {
      usedCapacity
    }

    /** `getFreeCapacity`: what is left of the buffer; the unsigned subtraction never wraps. */
    function GetFreeCapacity(): (free: nat)
      requires Valid()
      reads this
      ensures usedCapacity + free == capacity
    {
      capacity - usedCapacity
    }

    /** `getNumElements`: how many objects have been pushed since the last `clear`. */
    function GetNumElements(): (n: nat)
      requires Valid()
      reads this
      ensures n == |Objects()|
    {
      numElements
    }

    /**
     * `grow`: a new buffer of `GrowCapacity` bytes, into which the used part of the old one
     * is copied, so everything written stays at its offset.
     */
    method Grow(requiredFreeCapacity: nat)
      requires Valid() && requiredFreeCapacity < 0x1_0000_0000
      modifies this
      ensures Valid() && hasData && capacity == GrowCapacity(old(usedCapacity), requiredFreeCapacity)
      ensures GetFreeCapacity() >= requiredFreeCapacity
      ensures usedCapacity == old(usedCapacity) && numElements == old(numElements)
      ensures first == old(first) && last == old(last) && headers == old(headers) && oobData == old(oobData)
      ensures order == old(order)
    {
      capacity := GrowCapacity(usedCapacity, requiredFreeCapacity);
      hasData := true;
    }

    /**
     * `push_back`: write a block for an `ObjWrapper<T>` of `wrapSize` bytes (a multiple of its
     * alignment `wrapAlign`, and at least the header), growing the buffer when the block does
     * not fit, and return a `Ref` to it. The new used capacity must stay a valid `uint32_t`
     * below `InvalidValue`.
     */
    method PushBack(obj: int, wrapSize: nat, wrapAlign: nat, extraBytes: nat) returns (res: Ref)
      requires Valid() && wrapAlign > 0 && wrapSize % wrapAlign == 0 && wrapSize >= SizeTypeSize
      requires usedCapacity + BlockSize(wrapSize, wrapAlign, extraBytes) < InvalidValue
      modifies this
      ensures Valid() && Objects() == old(Objects()) + [obj] && numElements == old(numElements) + 1
      ensures res == Ref(old(usedCapacity)) && res.IsSet()
      ensures usedCapacity == old(usedCapacity) + BlockSize(wrapSize, wrapAlign, extraBytes)
      ensures headers == old(headers)[res.pos := Header(BlockSize(wrapSize, wrapAlign, extraBytes), obj)]
      ensures first == (if old(first).IsSet() then old(first) else res) && last == res
      ensures capacity == if old(GetFreeCapacity()) < BlockSize(wrapSize, wrapAlign, extraBytes)
                          then GrowCapacity(old(usedCapacity), BlockSize(wrapSize, wrapAlign, extraBytes))
                          else old(capacity)
      ensures oobData == old(oobData) && order == old(order) + [res.pos]
    {
      var size := BlockSize(wrapSize, wrapAlign, extraBytes);
      if GetFreeCapacity() < size {
        Grow(size);
      }
      res := WriteBlock(size, obj);
    }

    /** The part of `push_back` after the buffer has room: write the header at the end of the used part and link it. */
    method WriteBlock(size: nat, obj: int) returns (res: Ref)
      requires Valid() && size > 0 && usedCapacity + size <= capacity && usedCapacity + size < InvalidValue
      modifies this
      ensures Valid() && Objects() == old(Objects()) + [obj] && numElements == old(numElements) + 1
      ensures res == Ref(old(usedCapacity)) && res.IsSet() && usedCapacity == old(usedCapacity) + size
      ensures headers == old(headers)[res.pos := Header(size, obj)]
      ensures first == (if old(first).IsSet() then old(first) else res) && last == res
      ensures capacity == old(capacity) && hasData == old(hasData)
      ensures oobData == old(oobData) && order == old(order) + [res.pos]
    {
      ghost var used0, hs, o0 := usedCapacity, headers, order;
      FirstSetIffObjects();
      res := Ref(usedCapacity);
      usedCapacity := usedCapacity + size;
      headers := headers[res.pos := Header(size, obj)];
      numElements := numElements + 1;
      order := order + [res.pos];
      if !first.IsSet() {
        first := res;
      }
      last := res;
      PushKeepsValid(used0, hs, o0, size, obj);
    }

    /** The container after `push_back` has written a block at the old end of the used part. */
    lemma {:induction false} PushKeepsValid(used0: nat, hs: map<nat, Header>, o0: seq<nat>, size: nat, obj: int)
      requires ChainOk(o0, hs, used0) && size > 0 && usedCapacity == used0 + size
      requires usedCapacity <= capacity && usedCapacity < InvalidValue && (!hasData ==> capacity == 0)
      requires numElements == |o0| + 1 && order == o0 + [used0] && headers == hs[used0 := Header(size, obj)]
      requires first == (if o0 == [] then Ref(used0) else Ref(o0[0])) && last == Ref(used0)
      requires forall p :: p in oobData ==> p + |oobData[p]| <= used0
      ensures Valid() && ObjectsOf(order, headers) == ObjectsOf(o0, hs) + [obj]
    {
      PushChain(o0, hs, used0, size, obj);
    }

    /**
     * `oob_push_back_empty`: reserve `count` items of `itemSize` bytes, rounded up to the
     * header size, after the used part, growing the buffer when they do not fit; the block of
     * the last object, if any, is extended over them. The new used capacity must stay a valid
     * `uint32_t` below `InvalidValue`.
     */
    method OobPushBackEmpty(count: nat, itemSize: nat) returns (res: Ref)
      requires Valid() && usedCapacity + OobSize(count, itemSize) < InvalidValue
      modifies this
      ensures Valid() && Objects() == old(Objects()) && numElements == old(numElements)
      ensures res == Ref(old(usedCapacity)) && res.IsSet()
      ensures usedCapacity == old(usedCapacity) + OobSize(count, itemSize)
      ensures headers == if old(last).IsSet() then Extended(old(headers), old(last).pos, OobSize(count, itemSize)) else old(headers)
      ensures first == old(first) && last == old(last) && oobData == old(oobData) && order == old(order)
    {
      var aligned := OobSize(count, itemSize);
      if GetFreeCapacity() < aligned {
        Grow(aligned);
      }
      res := ExtendUsed(aligned);
    }

    /** The part of `oob_push_back_empty` after the buffer has room: extend the used part and the last block. */
    method ExtendUsed(aligned: nat) returns (res: Ref)
      requires Valid() && usedCapacity + aligned <= capacity && usedCapacity + aligned < InvalidValue
      modifies this
      ensures Valid() && Objects() == old(Objects()) && numElements == old(numElements)
      ensures res == Ref(old(usedCapacity)) && res.IsSet() && usedCapacity == old(usedCapacity) + aligned
      ensures headers == if old(last).IsSet() then Extended(old(headers), old(last).pos, aligned) else old(headers)
      ensures first == old(first) && last == old(last) && oobData == old(oobData) && order == old(order)
      ensures capacity == old(capacity) && hasData == old(hasData)
    {
      ghost var used0, hs := usedCapacity, headers;
      FirstSetIffObjects();
      res := Ref(usedCapacity);
      if last.IsSet() {
        headers := Extended(headers, last.pos, aligned);
      }
      usedCapacity := usedCapacity + aligned;
      OobKeepsValid(used0, hs, aligned);
    }

    /** The container after `oob_push_back_empty` has extended the used part and the last block. */
    lemma {:induction false} OobKeepsValid(used0: nat, hs: map<nat, Header>, aligned: nat)
      requires ChainOk(order, hs, used0) && usedCapacity == used0 + aligned
      requires usedCapacity <= capacity && usedCapacity < InvalidValue && (!hasData ==> capacity == 0)
      requires numElements == |order|
      requires first == (if order == [] then UnsetRef() else Ref(order[0]))
      requires last == (if order == [] then UnsetRef() else Ref(order[|order| - 1]))
      requires forall p :: p in oobData ==> p + |oobData[p]| <= used0
      requires last.IsSet() ==> last.pos in hs
      requires headers == if last.IsSet() then Extended(hs, last.pos, aligned) else hs
      ensures Valid() && ObjectsOf(order, headers) == ObjectsOf(order, hs)
    {
      if order != [] {
        BelowUsed(order, hs, used0, |order| - 1);
        ExtendChain(order, hs, used0, aligned, headers);
        ResizeKeepsObjects(order, hs, order[|order| - 1], hs[order[|order| - 1]].size + aligned, headers);
      }
    }

    /**
     * `oob_push_back`: reserve room as `oob_push_back_empty` does and copy the bytes of the
     * `count` items there.
     */
    method OobPushBack(data: seq<bv8>, count: nat, itemSize: nat) returns (res: Ref)
      requires Valid() && |data| == count * itemSize
      requires usedCapacity + OobSize(count, itemSize) < InvalidValue
      modifies this
      ensures Valid() && Objects() == old(Objects()) && numElements == old(numElements)
      ensures res == Ref(old(usedCapacity)) && oobData == old(oobData)[res.pos := data]
      ensures data != [] ==> res.pos < usedCapacity
      ensures usedCapacity == old(usedCapacity) + OobSize(count, itemSize)
      ensures first == old(first) && last == old(last) && order == old(order)
    {
      res := OobPushBackEmpty(count, itemSize);
      oobData := oobData[res.pos := data];
    }

    /** `begin`: the first object, or the end when there is none. */
    function Begin(): (it: Iterator)
      requires Valid()
      reads this
      ensures it.pos == PosOf(0)
    {
      FirstSetIffObjects();
      if first.IsSet() then Iterator(first.pos) else End()
    }

    /** `m_first` and `m_last` are set exactly when there is an object. */
    lemma {:induction false} FirstSetIffObjects()
      requires Valid()
      ensures first.IsSet() <==> order != []
      ensures last.IsSet() <==> order != []
    {
      if order != [] {
        BelowUsed(order, headers, usedCapacity, 0);
        BelowUsed(order, headers, usedCapacity, |order| - 1);
      }
    }

    /** `end`: just past the used part. */
    function End(): Iterator
      reads this
    {
      Iterator(usedCapacity)
    }

    /** `Iterator::operator++`: advance by the size in the header it is on, to the next object or the end. */
    function Increment(it: Iterator, ghost j: nat): (r: Iterator)
      requires Valid() && j < |order| && it.pos == order[j]
      reads this
      ensures r.pos == PosOf(j + 1) && (r == End() <==> j + 1 == |order|)
    {
      assert it.pos + headers[it.pos].size == NextIn(order, usedCapacity, j);
      AtEndIffDone(order, headers, usedCapacity, j + 1);
      Iterator(it.pos + headers[it.pos].size)
    }

    /** `Iterator::get` and `at`: the object behind the header, which is the j-th pushed. */
    function At(pos: nat, ghost j: nat): (obj: int)
      requires Valid() && j < |order| && pos == order[j]
      reads this
      ensures pos < usedCapacity && obj == Objects()[j]
    {
      BelowUsed(order, headers, usedCapacity, j);
      headers[pos].obj
    }

    /** `next`: the `Ref` to the next object, or `endRef()` after the last. */
    function Next(ref: Ref, ghost j: nat): (r: Ref)
      requires Valid() && j < |order| && ref.pos == order[j]
      reads this
      ensures r.pos == PosOf(j + 1) && (r == EndRef() <==> j + 1 == |order|)
    {
      assert ref.pos + headers[ref.pos].size == NextIn(order, usedCapacity, j);
      AtEndIffDone(order, headers, usedCapacity, j + 1);
      Ref(ref.pos + headers[ref.pos].size)
    }

    /** `beginRef`: always offset 0. */
    function BeginRef(): Ref
    {
      Ref(0)
    }

    /** `endRef`: the end of the used part, a set `Ref`. */
    function EndRef(): (r: Ref)
      requires Valid()
      reads this
      ensures r.IsSet()
    {
      Ref(usedCapacity)
    }

    /**
     * `beginRef()` is the first object exactly when no OOB data was pushed before it; with an
     * object there, `begin()` and `beginRef()` then agree.
     */
    lemma {:induction false} BeginRefIsFirst()
      requires Valid() && order != []
      ensures BeginRef() == first <==> order[0] == 0
      ensures Begin().pos == BeginRef().pos <==> order[0] == 0
    {
    }

    /** `iteratorToRef`: the iterator's offset as a `Ref`. */
    function IteratorToRef(it: Iterator): Ref
    {
      Ref(it.pos)
    }

    /** `refToIterator`: a set `Ref`'s offset as an iterator, undone by `iteratorToRef`. */
    function RefToIterator(ref: Ref): (it: Iterator)
      requires ref.IsSet()
      ensures IteratorToRef(it) == ref
    {
      Iterator(ref.pos)
    }

    /** `clear()`: forget every object and all OOB data; the buffer and its capacity stay. */
    method Clear()
      requires Valid()
      modifies this
      ensures Valid() && Objects() == [] && usedCapacity == 0 && numElements == 0
      ensures !first.IsSet() && !last.IsSet() && headers == map[] && oobData == map[]
      ensures capacity == old(capacity) && hasData == old(hasData)
    {
      usedCapacity, numElements := 0, 0;
      first, last := UnsetRef(), UnsetRef();
      headers, oobData, order := map[], map[], [];
    }

    /**
     * `clear(deleter)`: when there is a buffer, hand every object to the deleter in iteration
     * order, then clear; without one, do nothing (there is then no object).
     */
    method ClearWith() returns (deleted: seq<int>)
      requires Valid()
      modifies this
      ensures deleted == old(Objects())
      ensures Valid() && Objects() == [] && usedCapacity == 0 && numElements == 0
      ensures !first.IsSet() && !last.IsSet() && oobData == if old(hasData) then map[] else old(oobData)
      ensures capacity == old(capacity) && hasData == old(hasData)
    {
      deleted := [];
      if !hasData {
        assert order == [] by {
          if order != [] {
            BelowUsed(order, headers, usedCapacity, 0);
          }
        }
        return;
      }
      ghost var objs := Objects();
      var it := Begin();
      ghost var j := 0;
      while it != End()
        modifies {}
        invariant j <= |order| && it.pos == PosOf(j)
        invariant deleted == objs[..j]
        decreases |order| - j
      {
        AtEndIffDone(order, headers, usedCapacity, j);
        deleted := deleted + [At(it.pos, j)];
        it := Increment(it, j);
        j := j + 1;
      }
      AtEndIffDone(order, headers, usedCapacity, j);
      assert objs[..j] == objs;
      Clear();
    }
  }
}
