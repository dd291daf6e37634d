/**
 * A non-thread-safe reference-counted pointer family: `SharedPtr` (strong
 * handle), `WeakPtrImpl` (weak handle; `WeakPtr` when it may be promoted with
 * `lock`, `ObserverPtr` when it only peeks with `tryGet`) and `SharedRef` (a
 * `SharedPtr` that is never empty). Every handle refers to a control block
 * allocated together with the object, holding a strong and a weak counter.
 *
 * The object lives right after its control block, so an object address and its
 * block are the same thing here: a handle's `get()` is its `ControlBlock`
 * reference. The object's destruction and the block's release are recorded in
 * the block (`destroyed`, `freed`, and the number of deleter runs).
 *
 * Each block keeps, as ghost state, the set of handles that hold a reference
 * to it; its counters are the sizes of those sets. That is what lets the
 * proofs show that a counter is positive whenever a handle releases it, and
 * that no handle ever reaches a freed block.
 */
module SharedPointers {

  /** The observable part of a control block. */
  datatype BlockState = BlockState(strong: nat, weak: nat, destroyed: bool, freed: bool, deleterRuns: nat)

  /**
   * The states a block can be in: the deleter has run once exactly when the
   * object is destroyed, a destroyed object has no strong references, a freed
   * block has no references at all, and a destroyed object's block is freed as
   * soon as its last weak reference goes.
   */
  predicate Consistent(s: BlockState)
  {
    && s.deleterRuns == (if s.destroyed then 1 else 0)
    && (s.destroyed ==> s.strong == 0)
    && (s.freed ==> s.strong == 0 && s.weak == 0)
    && (s.destroyed && s.weak == 0 ==> s.freed)
  }

  /** `incStrong`. */
  function AfterIncStrong(s: BlockState): (r: BlockState)
    ensures r.strong == s.strong + 1 && r.weak == s.weak
    ensures Consistent(s) && !s.destroyed && !s.freed ==> Consistent(r) && !r.destroyed && !r.freed
  {
    s.(strong := s.strong + 1)
  }

  /**
   * `decStrong`: the deleter runs on the 1 -> 0 transition only, and the block
   * is freed when no reference of either kind is left.
   */
  function AfterDecStrong(s: BlockState): (r: BlockState)
    requires s.strong > 0
    ensures r.strong == s.strong - 1 && r.weak == s.weak
    ensures r.deleterRuns == s.deleterRuns + (if s.strong == 1 then 1 else 0)
    ensures Consistent(s) ==> Consistent(r) && r.deleterRuns <= 1
    ensures Consistent(s) ==> (r.destroyed <==> r.strong == 0)
    ensures Consistent(s) ==> (r.freed <==> r.strong == 0 && r.weak == 0)
  {
    var last := s.strong == 1;
    s.(strong := s.strong - 1,
       destroyed := s.destroyed || last,
       deleterRuns := s.deleterRuns + (if last then 1 else 0),
       freed := last && s.weak == 0)
  }

  /** `incWeak`. */
  function AfterIncWeak(s: BlockState): (r: BlockState)
    ensures r.weak == s.weak + 1 && r.strong == s.strong
    ensures Consistent(s) && !s.freed ==> Consistent(r) && !r.freed && r.destroyed == s.destroyed
  {
    s.(weak := s.weak + 1)
  }

  /** `decWeak`: the block is freed when the last reference of either kind goes; the object is never touched. */
  function AfterDecWeak(s: BlockState): (r: BlockState)
    requires s.weak > 0
    ensures r.weak == s.weak - 1 && r.strong == s.strong
    ensures r.destroyed == s.destroyed && r.deleterRuns == s.deleterRuns
    ensures r.freed <==> r.weak == 0 && r.strong == 0
    ensures Consistent(s) ==> Consistent(r)
  {
    s.(weak := s.weak - 1, freed := s.weak == 1 && s.strong == 0)
  }

  /** Replacing one member of a set by a non-member keeps its size. */
  lemma ReplaceInSet<T>(s: set<T>, x: T, y: T)
    requires x in s && y !in s
    ensures |s - {x} + {y}| == |s|
  {
    assert s - {x} + {y} == (s + {y}) - {x};
  }

  /** `SharedPtrControlBlock`: the counters, plus what has happened to the object and the block. */
  class ControlBlock {
    var strong: nat
    var weak: nat
    var destroyed: bool
    var freed: bool
    var deleterRuns: nat
    ghost var strongHolders: set<SharedPtr>
    ghost var weakHolders: set<WeakPtrImpl>

    function State(): BlockState
      reads this
    {
      BlockState(strong, weak, destroyed, freed, deleterRuns)
    }

    /** The counters count the handles that refer to this block. */
    ghost predicate Inv()
      reads this, strongHolders, weakHolders
    {
      Consistent(State()) && StrongCounted() && WeakCounted()
    }

    /** `strong` is the number of `SharedPtr`s on this block. */
    ghost predicate StrongCounted()
      reads this`strong, this`strongHolders, strongHolders
    {
      strong == |strongHolders| && forall p :: p in strongHolders ==> p.ctrl == this
    }

    /** `weak` is the number of weak handles on this block. */
    ghost predicate WeakCounted()
      reads this`weak, this`weakHolders, weakHolders
    {
      weak == |weakHolders| && forall w :: w in weakHolders ==> w.ctrl == this
    }

    /** `allocBlock` with the object constructed: both counters 0. */
    constructor()
      ensures Inv() && State() == BlockState(0, 0, false, false, 0)
      ensures strongHolders == {} && weakHolders == {}
    {
      strong, weak, destroyed, freed, deleterRuns := 0, 0, false, false, 0;
      strongHolders, weakHolders := {}, {};
    }

    /** `obj()`: the object while a strong reference exists, null otherwise. */
    function Obj(): (r: ControlBlock?)
      reads this
      ensures r != null <==> strong > 0
      ensures r != null ==> r == this
    {
      if strong > 0 then this else null
    }

    /** Hands one SharedPtr's place among the holders over to another handle, which now refers to this block. */
    ghost method ReplaceStrongHolder(from: SharedPtr, to: SharedPtr)
      requires Consistent(State()) && WeakCounted() && |strongHolders| == strong
      requires from in strongHolders && to !in strongHolders && to.ctrl == this
      requires forall p :: p in strongHolders && p != from ==> p.ctrl == this
      modifies this`strongHolders
      ensures Inv() && strongHolders == old(strongHolders) - {from} + {to}
    {
      ReplaceInSet(strongHolders, from, to);
      strongHolders := strongHolders - {from} + {to};
    }

    /** Hands one WeakPtrImpl's place among the holders over to another handle, which now refers to this block. */
    ghost method ReplaceWeakHolder(from: WeakPtrImpl, to: WeakPtrImpl)
      requires Consistent(State()) && StrongCounted() && |weakHolders| == weak
      requires from in weakHolders && to !in weakHolders && to.ctrl == this
      requires forall p :: p in weakHolders && p != from ==> p.ctrl == this
      modifies this`weakHolders
      ensures Inv() && weakHolders == old(weakHolders) - {from} + {to}
    {
      ReplaceInSet(weakHolders, from, to);
      weakHolders := weakHolders - {from} + {to};
    }

    method IncStrong(ghost h: SharedPtr)
      requires Inv() && !destroyed && !freed && h.ctrl == this && h !in strongHolders
      modifies this
      ensures Inv() && State() == AfterIncStrong(old(State()))
      ensures strongHolders == old(strongHolders) + {h} && weakHolders == old(weakHolders)
    {
      strong := strong + 1;
      strongHolders := strongHolders + {h};
    }

    /** `decStrong`: `assert(strong > 0)` holds because h is one of the strong holders. */
    method DecStrong(ghost h: SharedPtr)
      requires Inv() && h in strongHolders
      modifies this
      ensures Inv() && State() == AfterDecStrong(old(State()))
      ensures strongHolders == old(strongHolders) - {h} && weakHolders == old(weakHolders)
      ensures !old(freed)
    {
      if strong == 1 {
        destroyed := true;
        deleterRuns := deleterRuns + 1;
      }
      strong := strong - 1;
      strongHolders := strongHolders - {h};
      if strong == 0 && weak == 0 {
        freed := true;
      }
    }

    method IncWeak(ghost h: WeakPtrImpl)
      requires Inv() && !freed && h.ctrl == this && h !in weakHolders
      modifies this
      ensures Inv() && State() == AfterIncWeak(old(State()))
      ensures weakHolders == old(weakHolders) + {h} && strongHolders == old(strongHolders)
    {
      weak := weak + 1;
      weakHolders := weakHolders + {h};
    }

    /** `decWeak`: `assert(weak > 0)` holds because h is one of the weak holders. */
    method DecWeak(ghost h: WeakPtrImpl)
      requires Inv() && h in weakHolders
      modifies this
      ensures Inv() && State() == AfterDecWeak(old(State()))
      ensures weakHolders == old(weakHolders) - {h} && strongHolders == old(strongHolders)
      ensures !old(freed)
    {
      weak := weak - 1;
      weakHolders := weakHolders - {h};
      if weak == 0 && strong == 0 {
        freed := true;
      }
    }
  }

  /** `SharedPtr`: a possibly empty strong handle. */
  class SharedPtr {
    var ctrl: ControlBlock?

    /** A non-empty handle is one of its block's strong holders. */
    ghost predicate Valid()
      reads this, ctrl, if ctrl == null then {} else ctrl.strongHolders, if ctrl == null then {} else ctrl.weakHolders
      ensures Valid() && ctrl != null ==> ctrl.strong >= 1 && !ctrl.destroyed && !ctrl.freed
    {
      ctrl != null ==> ctrl.Inv() && this in ctrl.strongHolders
    }

    /** The default and `nullptr` constructors. */
    constructor()
      ensures ctrl == null && Valid()
    {
      ctrl := null;
    }

    /** `explicit SharedPtr(U* ptr)`: acquires the block of a live object (one more strong reference), or nothing for null. */
    constructor FromObject(obj: ControlBlock?)
      requires obj != null ==> obj.Inv() && !obj.destroyed && !obj.freed
      modifies obj
      ensures ctrl == obj && Valid()
      ensures obj != null ==> obj.State() == AfterIncStrong(old(obj.State()))
      ensures obj != null ==> obj.strongHolders == old(obj.strongHolders) + {this} && obj.weakHolders == old(obj.weakHolders)
    {
      ctrl := obj;
      new;
      if obj != null {
        obj.IncStrong(this);
      }
    }

    /** The copy constructor: same block, one more strong reference. */
    constructor Copy(other: SharedPtr)
      requires other.Valid()
      modifies other.ctrl
      ensures ctrl == other.ctrl && Valid() && other.Valid()
      ensures ctrl != null ==> ctrl.State() == AfterIncStrong(old(other.ctrl.State()))
      ensures ctrl != null ==> ctrl.strongHolders == old(other.ctrl.strongHolders) + {this} && ctrl.weakHolders == old(other.ctrl.weakHolders)
    {
      ctrl := other.ctrl;
      new;
      if ctrl != null {
        ctrl.IncStrong(this);
      }
    }

    /** The move constructor: takes over other's reference without touching the counters; other becomes empty. */
    constructor Move(other: SharedPtr)
      requires other.Valid()
      modifies other, other.ctrl
      ensures ctrl == old(other.ctrl) && other.ctrl == null && Valid() && other.Valid()
      ensures ctrl != null ==> ctrl.State() == old(other.ctrl.State())
      ensures ctrl != null ==> ctrl.strongHolders == old(other.ctrl.strongHolders) - {other} + {this} && ctrl.weakHolders == old(other.ctrl.weakHolders)
    {
      ctrl := other.ctrl;
      new;
      other.ctrl := null;
      if ctrl != null {
        ctrl.strongHolders := ctrl.strongHolders - {other} + {this};
      }
    }

    /** `ControlHolder::release` (run by `reset` and the destructor): drops the strong reference, if any. */
    method Release()
      requires Valid()
      modifies this, ctrl
      ensures ctrl == null && Valid()
      ensures old(ctrl) != null ==> old(ctrl).Inv() && old(ctrl).State() == AfterDecStrong(old(ctrl.State()))
      ensures old(ctrl) != null ==> old(ctrl).strongHolders == old(ctrl.strongHolders) - {this}
      ensures old(ctrl) != null ==> old(ctrl).weakHolders == old(ctrl.weakHolders)
    {
      if ctrl != null {
        ctrl.DecStrong(this);
        ctrl := null;
      }
    }

    /** `swap`: the two handles exchange blocks; no counter changes. */
    method Swap(other: SharedPtr)
      requires Valid() && other.Valid()
      modifies this, other, ctrl, other.ctrl
      ensures ctrl == old(other.ctrl) && other.ctrl == old(ctrl)
      ensures Valid() && other.Valid()
      ensures old(ctrl) != null ==> old(ctrl).State() == old(ctrl.State()) && old(ctrl).weakHolders == old(ctrl.weakHolders)
      ensures old(other.ctrl) != null ==> old(other.ctrl).State() == old(other.ctrl.State()) && old(other.ctrl).weakHolders == old(other.ctrl.weakHolders)
      ensures other != this && ctrl != other.ctrl && old(ctrl) != null ==>
        old(ctrl).strongHolders == old(ctrl.strongHolders) - {this} + {other}
      ensures other != this && ctrl != other.ctrl && old(other.ctrl) != null ==>
        old(other.ctrl).strongHolders == old(other.ctrl.strongHolders) - {other} + {this}
      ensures (other == this || ctrl == other.ctrl) && ctrl != null ==> ctrl.strongHolders == old(ctrl.strongHolders)
    {
      if this == other || ctrl == other.ctrl {
        ctrl, other.ctrl := other.ctrl, ctrl;
      } else {
        SwapDistinct(other);
      }
    }

    /** `swap` of two handles on different blocks: each block trades one holder for the other. */
    method SwapDistinct(other: SharedPtr)
      requires Valid() && other.Valid() && this != other && ctrl != other.ctrl
      modifies this, other, ctrl, other.ctrl
      ensures ctrl == old(other.ctrl) && other.ctrl == old(ctrl)
      ensures Valid() && other.Valid()
      ensures old(ctrl) != null ==> old(ctrl).State() == old(ctrl.State()) && old(ctrl).weakHolders == old(ctrl.weakHolders)
      ensures old(other.ctrl) != null ==> old(other.ctrl).State() == old(other.ctrl.State()) && old(other.ctrl).weakHolders == old(other.ctrl.weakHolders)
      ensures old(ctrl) != null ==> old(ctrl).strongHolders == old(ctrl.strongHolders) - {this} + {other}
      ensures old(other.ctrl) != null ==> old(other.ctrl).strongHolders == old(other.ctrl.strongHolders) - {other} + {this}
    {
      var a, b := ctrl, other.ctrl;
      ctrl, other.ctrl := b, a;
      if a != null {
        a.ReplaceStrongHolder(this, other);
      }
      if b != null {
        b.ReplaceStrongHolder(other, this);
      }
    }

    /**
     * `tmp.swap(*this)` followed by the destruction of the temporary tmp: this
     * ends up on tmp's block and the reference this held is dropped.
     */
    method TakeFrom(tmp: SharedPtr)
      requires tmp != this && Valid() && tmp.Valid()
      modifies this, tmp, ctrl, tmp.ctrl
      ensures ctrl == old(tmp.ctrl) && tmp.ctrl == null && Valid() && tmp.Valid()
      ensures ctrl != null && ctrl != old(ctrl) ==> ctrl.Inv() && ctrl.State() == old(tmp.ctrl.State())
      ensures ctrl != null && ctrl != old(ctrl) ==> ctrl.strongHolders == old(tmp.ctrl.strongHolders) - {tmp} + {this}
      ensures ctrl != null && ctrl != old(ctrl) ==> ctrl.weakHolders == old(tmp.ctrl.weakHolders)
      ensures old(ctrl) != null ==> old(ctrl).Inv() && old(ctrl).State() == AfterDecStrong(old(ctrl.State()))
      ensures old(ctrl) != null ==> old(ctrl).weakHolders == old(ctrl.weakHolders)
      ensures old(ctrl) != null && old(ctrl) != ctrl ==> old(ctrl).strongHolders == old(ctrl.strongHolders) - {this}
      ensures old(ctrl) != null && old(ctrl) == ctrl ==> ctrl.strongHolders == old(ctrl.strongHolders) - {tmp}
    {
      ghost var a := ctrl;
      Swap(tmp);
      assert a != null ==> a.Inv() && tmp in a.strongHolders;
      tmp.Release();
    }

    /**
     * Copy assignment, by copy-and-swap: this ends up on other's block. When the
     * blocks differ the new one gains a strong reference and the old one loses
     * one; when they are the same (self-assignment included) nothing changes.
     */
    method Assign(other: SharedPtr)
      requires Valid() && other.Valid()
      modifies this, ctrl, other.ctrl
      ensures ctrl == old(other.ctrl) && Valid() && other.Valid()
      ensures old(ctrl) == ctrl && ctrl != null ==> ctrl.State() == old(ctrl.State())
      ensures old(ctrl) != ctrl && ctrl != null ==> ctrl.State() == AfterIncStrong(old(other.ctrl.State()))
      ensures old(ctrl) != ctrl && old(ctrl) != null ==> old(ctrl).Inv() && old(ctrl).State() == AfterDecStrong(old(ctrl.State()))
      ensures old(ctrl) == ctrl && ctrl != null ==> ctrl.strongHolders == old(ctrl.strongHolders) && ctrl.weakHolders == old(ctrl.weakHolders)
      ensures old(ctrl) != ctrl && ctrl != null ==>
        ctrl.strongHolders == old(other.ctrl.strongHolders) + {this} && ctrl.weakHolders == old(other.ctrl.weakHolders)
      ensures old(ctrl) != ctrl && old(ctrl) != null ==>
        old(ctrl).strongHolders == old(ctrl.strongHolders) - {this} && old(ctrl).weakHolders == old(ctrl.weakHolders)
    {
      var tmp := new SharedPtr.Copy(other);
      TakeFrom(tmp);
    }

    /**
     * Move assignment: this takes over other's reference and other becomes
     * empty (unless it is this); the reference this held before is dropped.
     */
    method MoveAssign(other: SharedPtr)
      requires Valid() && other.Valid()
      modifies this, other, ctrl, other.ctrl
      ensures ctrl == old(other.ctrl) && Valid() && other.Valid()
      ensures other != this ==> other.ctrl == null
      ensures other == this && ctrl != null ==> ctrl.State() == old(ctrl.State())
      ensures other != this && old(ctrl) != ctrl && ctrl != null ==> ctrl.State() == old(other.ctrl.State())
      ensures other != this && old(ctrl) != null ==> old(ctrl).Inv() && old(ctrl).State() == AfterDecStrong(old(ctrl.State()))
      ensures other == this && ctrl != null ==> ctrl.strongHolders == old(ctrl.strongHolders) && ctrl.weakHolders == old(ctrl.weakHolders)
      ensures other != this && old(ctrl) == ctrl && ctrl != null ==>
        ctrl.strongHolders == old(ctrl.strongHolders) - {other} && ctrl.weakHolders == old(ctrl.weakHolders)
      ensures other != this && old(ctrl) != ctrl && ctrl != null ==>
        ctrl.strongHolders == old(other.ctrl.strongHolders) - {other} + {this} && ctrl.weakHolders == old(other.ctrl.weakHolders)
      ensures other != this && old(ctrl) != ctrl && old(ctrl) != null ==>
        old(ctrl).strongHolders == old(ctrl.strongHolders) - {this} && old(ctrl).weakHolders == old(ctrl.weakHolders)
    {
      var tmp := new SharedPtr.Move(other);
      TakeFrom(tmp);
    }

    /** `get()` (and `operator->`/`operator*`, which CZ_CHECK non-null): the object, which is alive while held. */
    function Get(): (r: ControlBlock?)
      reads this
      ensures r == ctrl
    {
      ctrl
    }

    /** `operator bool`: whether `get()` is non-null. */
    predicate IsSet()
      reads this
      ensures IsSet() <==> Get() != null
    {
      ctrl != null
    }

    /** `use_count()`: 0 for an empty handle, at least 1 otherwise. */
    function UseCount(): (n: nat)
      reads this, ctrl
      ensures ctrl == null ==> n == 0
      ensures ctrl != null ==> n == ctrl.strong
    {
      if ctrl != null then ctrl.strong else 0
    }

    /** `weak_use_count()`. */
    function WeakUseCount(): (n: nat)
      reads this, ctrl
      ensures ctrl == null ==> n == 0
      ensures ctrl != null ==> n == ctrl.weak
    {
      if ctrl != null then ctrl.weak else 0
    }

    /** `unique()`: the handle is non-empty and its block has exactly one strong reference. */
    predicate Unique()
      reads this, ctrl
      ensures Unique() <==> ctrl != null && ctrl.strong == 1
    {
      UseCount() == 1
    }

    /** `toSharedRef`: CZ_CHECK(*this), then a `SharedRef` copy of this handle. */
    method ToSharedRef() returns (r: SharedRef)
      requires Valid() && ctrl != null
      modifies ctrl
      ensures fresh(r) && fresh(r.ptr) && r.Valid() && Valid() && r.Get() == ctrl
      ensures ctrl.State() == AfterIncStrong(old(ctrl.State()))
      ensures ctrl.strongHolders == old(ctrl.strongHolders) + {r.ptr} && ctrl.weakHolders == old(ctrl.weakHolders)
    {
      r := new SharedRef.FromShared(this);
    }
  }

  /** `operator==` between two `SharedPtr`s, and with `nullptr` (`Equal(p, null-handle)`): the objects are the same. */
  predicate Equal(left: SharedPtr, right: SharedPtr)
    reads left, right
    ensures Equal(left, right) <==> left.ctrl == right.ctrl
    ensures right.ctrl == null ==> (Equal(left, right) <==> !left.IsSet())
  {
    left.Get() == right.Get()
  }

  /** `makeShared`: a new object in a new block, held by one strong reference and no weak one. */
  method MakeShared() returns (p: SharedPtr)
    ensures fresh(p) && fresh(p.ctrl) && p.Valid()
    ensures p.IsSet() && p.UseCount() == 1 && p.WeakUseCount() == 0
    ensures p.ctrl.strongHolders == {p} && p.ctrl.weakHolders == {}
  {
    var block := new ControlBlock();
    p := new SharedPtr.FromObject(block);
  }

  /** `static_pointer_cast`: a new handle on the same object (types are not modelled), one more strong reference. */
  method StaticPointerCast(other: SharedPtr) returns (r: SharedPtr)
    requires other.Valid()
    modifies other.ctrl
    ensures fresh(r) && r.Valid() && other.Valid() && Equal(r, other)
    ensures other.ctrl != null ==> other.ctrl.State() == AfterIncStrong(old(other.ctrl.State()))
    ensures other.ctrl != null ==>
      other.ctrl.strongHolders == old(other.ctrl.strongHolders) + {r} && other.ctrl.weakHolders == old(other.ctrl.weakHolders)
  {
    r := new SharedPtr.FromObject(other.Get());
  }

  /**
   * `static_pointer_cast` from an rvalue: other is moved into a temporary, the result acquires
   * the object, and the temporary's destruction drops its reference. other ends empty and the
   * block's counters come out as they went in; the result takes other's place among its holders.
   */
  method StaticPointerCastMove(other: SharedPtr) returns (r: SharedPtr)
    requires other.Valid()
    modifies other, other.ctrl
    ensures fresh(r) && r.Valid() && other.Valid() && other.ctrl == null && r.ctrl == old(other.ctrl)
    ensures r.ctrl != null ==> r.ctrl.State() == old(other.ctrl.State())
    ensures r.ctrl != null ==>
      r.ctrl.strongHolders == old(other.ctrl.strongHolders) - {other} + {r} && r.ctrl.weakHolders == old(other.ctrl.weakHolders)
  {
    var tmp := new SharedPtr.Move(other);
    r := new SharedPtr.FromObject(tmp.Get());
    tmp.Release();
  }

  /** A unique handle is the only strong holder of its block, and the only strong holder is unique. */
  lemma {:induction false} UniqueIffSoleHolder(p: SharedPtr)
    requires p.Valid()
    ensures p.Unique() <==> p.ctrl != null && p.ctrl.strongHolders == {p}
  {
    if p.ctrl != null && p.ctrl.strong == 1 {
      var rest := p.ctrl.strongHolders - {p};
      assert |rest| == 0;
      assert p.ctrl.strongHolders == rest + {p};
    }
  }

  /** Two handles compare equal iff they share a block, and then they report the same counts. */
  lemma {:induction false} EqualSharesCounts(left: SharedPtr, right: SharedPtr)
    requires left.Valid() && right.Valid() && Equal(left, right)
    ensures left.UseCount() == right.UseCount() && left.WeakUseCount() == right.WeakUseCount()
    ensures left.IsSet() ==> left in left.ctrl.strongHolders && right in left.ctrl.strongHolders
  {
  }

  /** `WeakPtrImpl`: a possibly empty weak handle; `isObserver` tells `ObserverPtr` from `WeakPtr`. */
  class WeakPtrImpl {
    const isObserver: bool
    var ctrl: ControlBlock?

    /** A non-empty handle is one of its block's weak holders. */
    ghost predicate Valid()
      reads this, ctrl, if ctrl == null then {} else ctrl.strongHolders, if ctrl == null then {} else ctrl.weakHolders
      ensures Valid() && ctrl != null ==> ctrl.weak >= 1 && !ctrl.freed
    {
      ctrl != null ==> ctrl.Inv() && this in ctrl.weakHolders
    }

    constructor(isObserver: bool)
      ensures this.isObserver == isObserver && ctrl == null && Valid()
    {
      this.isObserver := isObserver;
      ctrl := null;
    }

    /** Copy construction from another weak handle (of either kind): one more weak reference. */
    constructor Copy(isObserver: bool, other: WeakPtrImpl)
      requires other.Valid()
      modifies other.ctrl
      ensures this.isObserver == isObserver && ctrl == other.ctrl && Valid() && other.Valid()
      ensures ctrl != null ==> ctrl.State() == AfterIncWeak(old(other.ctrl.State()))
      ensures ctrl != null ==> ctrl.weakHolders == old(other.ctrl.weakHolders) + {this} && ctrl.strongHolders == old(other.ctrl.strongHolders)
    {
      this.isObserver := isObserver;
      ctrl := other.ctrl;
      new;
      if ctrl != null {
        ctrl.IncWeak(this);
      }
    }

    /** Construction from a `SharedPtr`: one more weak reference to its block. */
    constructor FromShared(isObserver: bool, other: SharedPtr)
      requires other.Valid()
      modifies other.ctrl
      ensures this.isObserver == isObserver && ctrl == other.ctrl && Valid() && other.Valid()
      ensures ctrl != null ==> ctrl.State() == AfterIncWeak(old(other.ctrl.State()))
      ensures ctrl != null ==> ctrl.weakHolders == old(other.ctrl.weakHolders) + {this} && ctrl.strongHolders == old(other.ctrl.strongHolders)
    {
      this.isObserver := isObserver;
      ctrl := other.ctrl;
      new;
      if ctrl != null {
        ctrl.IncWeak(this);
      }
    }

    /** The move constructor: takes over other's reference without touching the counters; other becomes empty. */
    constructor Move(isObserver: bool, other: WeakPtrImpl)
      requires other.Valid()
      modifies other, other.ctrl
      ensures this.isObserver == isObserver && ctrl == old(other.ctrl) && other.ctrl == null && Valid() && other.Valid()
      ensures ctrl != null ==> ctrl.State() == old(other.ctrl.State())
      ensures ctrl != null ==> ctrl.weakHolders == old(other.ctrl.weakHolders) - {other} + {this} && ctrl.strongHolders == old(other.ctrl.strongHolders)
    {
      this.isObserver := isObserver;
      ctrl := other.ctrl;
      new;
      other.ctrl := null;
      if ctrl != null {
        ctrl.weakHolders := ctrl.weakHolders - {other} + {this};
      }
    }

    /** `ControlHolder::release` (run by the destructor and by `tryGet`): drops the weak reference, if any. */
    method Release()
      requires Valid()
      modifies this, ctrl
      ensures ctrl == null && Valid()
      ensures old(ctrl) != null ==> old(ctrl).Inv() && old(ctrl).State() == AfterDecWeak(old(ctrl.State()))
      ensures old(ctrl) != null ==> old(ctrl).weakHolders == old(ctrl.weakHolders) - {this}
      ensures old(ctrl) != null ==> old(ctrl).strongHolders == old(ctrl.strongHolders)
    {
      if ctrl != null {
        ctrl.DecWeak(this);
        ctrl := null;
      }
    }

    /** `swap`: the two handles exchange blocks; no counter changes. */
    method Swap(other: WeakPtrImpl)
      requires Valid() && other.Valid()
      modifies this, other, ctrl, other.ctrl
      ensures ctrl == old(other.ctrl) && other.ctrl == old(ctrl)
      ensures Valid() && other.Valid()
      ensures old(ctrl) != null ==> old(ctrl).State() == old(ctrl.State()) && old(ctrl).strongHolders == old(ctrl.strongHolders)
      ensures old(other.ctrl) != null ==> old(other.ctrl).State() == old(other.ctrl.State()) && old(other.ctrl).strongHolders == old(other.ctrl.strongHolders)
      ensures other != this && ctrl != other.ctrl && old(ctrl) != null ==>
        old(ctrl).weakHolders == old(ctrl.weakHolders) - {this} + {other}
      ensures other != this && ctrl != other.ctrl && old(other.ctrl) != null ==>
        old(other.ctrl).weakHolders == old(other.ctrl.weakHolders) - {other} + {this}
      ensures (other == this || ctrl == other.ctrl) && ctrl != null ==> ctrl.weakHolders == old(ctrl.weakHolders)
    {
      if this == other || ctrl == other.ctrl {
        ctrl, other.ctrl := other.ctrl, ctrl;
      } else {
        SwapDistinct(other);
      }
    }

    /** `swap` of two handles on different blocks: each block trades one holder for the other. */
    method SwapDistinct(other: WeakPtrImpl)
      requires Valid() && other.Valid() && this != other && ctrl != other.ctrl
      modifies this, other, ctrl, other.ctrl
      ensures ctrl == old(other.ctrl) && other.ctrl == old(ctrl)
      ensures Valid() && other.Valid()
      ensures old(ctrl) != null ==> old(ctrl).State() == old(ctrl.State()) && old(ctrl).strongHolders == old(ctrl.strongHolders)
      ensures old(other.ctrl) != null ==> old(other.ctrl).State() == old(other.ctrl.State()) && old(other.ctrl).strongHolders == old(other.ctrl.strongHolders)
      ensures old(ctrl) != null ==> old(ctrl).weakHolders == old(ctrl.weakHolders) - {this} + {other}
      ensures old(other.ctrl) != null ==> old(other.ctrl).weakHolders == old(other.ctrl.weakHolders) - {other} + {this}
    {
      var a, b := ctrl, other.ctrl;
      ctrl, other.ctrl := b, a;
      if a != null {
        a.ReplaceWeakHolder(this, other);
      }
      if b != null {
        b.ReplaceWeakHolder(other, this);
      }
    }

    /**
     * `tmp.swap(*this)` followed by the destruction of the temporary tmp: this
     * ends up on tmp's block and the reference this held is dropped.
     */
    method TakeFrom(tmp: WeakPtrImpl)
      requires tmp != this && Valid() && tmp.Valid()
      modifies this, tmp, ctrl, tmp.ctrl
      ensures ctrl == old(tmp.ctrl) && tmp.ctrl == null && Valid() && tmp.Valid()
      ensures ctrl != null && ctrl != old(ctrl) ==> ctrl.Inv() && ctrl.State() == old(tmp.ctrl.State())
      ensures ctrl != null && ctrl != old(ctrl) ==> ctrl.weakHolders == old(tmp.ctrl.weakHolders) - {tmp} + {this}
      ensures ctrl != null && ctrl != old(ctrl) ==> ctrl.strongHolders == old(tmp.ctrl.strongHolders)
      ensures old(ctrl) != null ==> old(ctrl).Inv() && old(ctrl).State() == AfterDecWeak(old(ctrl.State()))
      ensures old(ctrl) != null ==> old(ctrl).strongHolders == old(ctrl.strongHolders)
      ensures old(ctrl) != null && old(ctrl) != ctrl ==> old(ctrl).weakHolders == old(ctrl.weakHolders) - {this}
      ensures old(ctrl) != null && old(ctrl) == ctrl ==> ctrl.weakHolders == old(ctrl.weakHolders) - {tmp}
    {
      ghost var a := ctrl;
      Swap(tmp);
      assert a != null ==> a.Inv() && tmp in a.weakHolders;
      tmp.Release();
    }

    /** `reset`: swap with an empty handle, whose destruction drops the reference. */
    method Reset()
      requires Valid()
      modifies this, ctrl
      ensures ctrl == null && Valid()
      ensures old(ctrl) != null ==> old(ctrl).Inv() && old(ctrl).State() == AfterDecWeak(old(ctrl.State()))
      ensures old(ctrl) != null ==>
        old(ctrl).weakHolders == old(ctrl.weakHolders) - {this} && old(ctrl).strongHolders == old(ctrl.strongHolders)
    {
      var tmp := new WeakPtrImpl(isObserver);
      TakeFrom(tmp);
    }

    /** Copy assignment from a weak handle, by copy-and-swap. */
    method Assign(other: WeakPtrImpl)
      requires Valid() && other.Valid()
      modifies this, ctrl, other.ctrl
      ensures ctrl == old(other.ctrl) && Valid() && other.Valid()
      ensures old(ctrl) == ctrl && ctrl != null ==> ctrl.State() == old(ctrl.State())
      ensures old(ctrl) != ctrl && ctrl != null ==> ctrl.State() == AfterIncWeak(old(other.ctrl.State()))
      ensures old(ctrl) != ctrl && old(ctrl) != null ==> old(ctrl).Inv() && old(ctrl).State() == AfterDecWeak(old(ctrl.State()))
      ensures old(ctrl) == ctrl && ctrl != null ==> ctrl.weakHolders == old(ctrl.weakHolders) && ctrl.strongHolders == old(ctrl.strongHolders)
      ensures old(ctrl) != ctrl && ctrl != null ==>
        ctrl.weakHolders == old(other.ctrl.weakHolders) + {this} && ctrl.strongHolders == old(other.ctrl.strongHolders)
      ensures old(ctrl) != ctrl && old(ctrl) != null ==>
        old(ctrl).weakHolders == old(ctrl.weakHolders) - {this} && old(ctrl).strongHolders == old(ctrl.strongHolders)
    {
      var tmp := new WeakPtrImpl.Copy(isObserver, other);
      TakeFrom(tmp);
    }

    /** Assignment from a `SharedPtr`, by copy-and-swap. */
    method AssignShared(other: SharedPtr)
      requires Valid() && other.Valid()
      modifies this, ctrl, other.ctrl
      ensures ctrl == old(other.ctrl) && Valid() && other.Valid()
      ensures old(ctrl) == ctrl && ctrl != null ==> ctrl.State() == old(ctrl.State())
      ensures old(ctrl) != ctrl && ctrl != null ==> ctrl.State() == AfterIncWeak(old(other.ctrl.State()))
      ensures old(ctrl) != ctrl && old(ctrl) != null ==> old(ctrl).Inv() && old(ctrl).State() == AfterDecWeak(old(ctrl.State()))
      ensures old(ctrl) == ctrl && ctrl != null ==> ctrl.weakHolders == old(ctrl.weakHolders) && ctrl.strongHolders == old(ctrl.strongHolders)
      ensures old(ctrl) != ctrl && ctrl != null ==>
        ctrl.weakHolders == old(other.ctrl.weakHolders) + {this} && ctrl.strongHolders == old(other.ctrl.strongHolders)
      ensures old(ctrl) != ctrl && old(ctrl) != null ==>
        old(ctrl).weakHolders == old(ctrl.weakHolders) - {this} && old(ctrl).strongHolders == old(ctrl.strongHolders)
    {
      var tmp := new WeakPtrImpl.FromShared(isObserver, other);
      TakeFrom(tmp);
    }

    /** Move assignment: this takes over other's reference and other becomes empty (unless it is this). */
    method MoveAssign(other: WeakPtrImpl)
      requires Valid() && other.Valid()
      modifies this, other, ctrl, other.ctrl
      ensures ctrl == old(other.ctrl) && Valid() && other.Valid()
      ensures other != this ==> other.ctrl == null
      ensures other == this && ctrl != null ==> ctrl.State() == old(ctrl.State())
      ensures other != this && old(ctrl) != ctrl && ctrl != null ==> ctrl.State() == old(other.ctrl.State())
      ensures other != this && old(ctrl) != null ==> old(ctrl).Inv() && old(ctrl).State() == AfterDecWeak(old(ctrl.State()))
      ensures other == this && ctrl != null ==> ctrl.weakHolders == old(ctrl.weakHolders) && ctrl.strongHolders == old(ctrl.strongHolders)
      ensures other != this && old(ctrl) == ctrl && ctrl != null ==>
        ctrl.weakHolders == old(ctrl.weakHolders) - {other} && ctrl.strongHolders == old(ctrl.strongHolders)
      ensures other != this && old(ctrl) != ctrl && ctrl != null ==>
        ctrl.weakHolders == old(other.ctrl.weakHolders) - {other} + {this} && ctrl.strongHolders == old(other.ctrl.strongHolders)
      ensures other != this && old(ctrl) != ctrl && old(ctrl) != null ==>
        old(ctrl).weakHolders == old(ctrl.weakHolders) - {this} && old(ctrl).strongHolders == old(ctrl.strongHolders)
    {
      var tmp := new WeakPtrImpl.Move(isObserver, other);
      TakeFrom(tmp);
    }

    /** `use_count()`. */
    function UseCount(): (n: nat)
      reads this, ctrl
      ensures ctrl == null ==> n == 0
      ensures ctrl != null ==> n == ctrl.strong
    {
      if ctrl != null then ctrl.strong else 0
    }

    /** `weak_use_count()`. */
    function WeakUseCount(): (n: nat)
      reads this, ctrl
      ensures ctrl == null ==> n == 0
      ensures ctrl != null ==> n == ctrl.weak
    {
      if ctrl != null then ctrl.weak else 0
    }

    /** `expired()`: no strong reference is left (or the handle is empty). */
    predicate Expired()
      reads this, ctrl
      ensures Expired() <==> UseCount() == 0
    {
      UseCount() == 0
    }

    /**
     * `lock()` (WeakPtr only): while the object is alive, a new `SharedPtr` on
     * it with one more strong reference; otherwise an empty `SharedPtr` and no change.
     */
    method Lock() returns (p: SharedPtr)
      requires !isObserver && Valid()
      modifies ctrl
      ensures fresh(p) && p.Valid() && Valid()
      ensures old(UseCount()) > 0 ==> p.ctrl == ctrl && ctrl.State() == AfterIncStrong(old(ctrl.State()))
      ensures old(UseCount()) == 0 ==> p.ctrl == null && (ctrl != null ==> ctrl.State() == old(ctrl.State()))
      ensures old(UseCount()) > 0 ==> ctrl.strongHolders == old(ctrl.strongHolders) + {p} && ctrl.weakHolders == old(ctrl.weakHolders)
      ensures old(UseCount()) == 0 && ctrl != null ==> ctrl.strongHolders == old(ctrl.strongHolders) && ctrl.weakHolders == old(ctrl.weakHolders)
    {
      if UseCount() > 0 {
        p := new SharedPtr.FromObject(ctrl.Obj());
      } else {
        p := new SharedPtr();
      }
    }

    /**
     * `tryGet()` (ObserverPtr only): the object while it is alive; otherwise the
     * handle drops its weak reference (possibly freeing the block), becomes
     * empty, and returns null, as every later call does.
     */
    method TryGet() returns (r: ControlBlock?)
      requires isObserver && Valid()
      modifies this, ctrl
      ensures Valid()
      ensures old(UseCount()) > 0 ==> r == old(ctrl) && ctrl == old(ctrl) && ctrl.State() == old(ctrl.State())
      ensures old(UseCount()) == 0 ==> r == null && ctrl == null
      ensures old(UseCount()) == 0 && old(ctrl) != null ==> old(ctrl).State() == AfterDecWeak(old(ctrl.State()))
      ensures old(UseCount()) > 0 ==> ctrl.weakHolders == old(ctrl.weakHolders) && ctrl.strongHolders == old(ctrl.strongHolders)
      ensures old(UseCount()) == 0 && old(ctrl) != null ==>
        old(ctrl).weakHolders == old(ctrl.weakHolders) - {this} && old(ctrl).strongHolders == old(ctrl.strongHolders)
    {
      if UseCount() > 0 {
        r := ctrl.Obj();
      } else {
        Release();
        r := null;
      }
    }
  }

  /** `SharedRef`: a `SharedPtr` that is never empty. */
  class SharedRef {
    const ptr: SharedPtr

    ghost predicate Valid()
      reads this, ptr, ptr.ctrl, if ptr.ctrl == null then {} else ptr.ctrl.strongHolders, if ptr.ctrl == null then {} else ptr.ctrl.weakHolders
    {
      ptr.Valid() && ptr.ctrl != null
    }

    /** Construction from a `SharedPtr` (copied): CZ_CHECK that it is not empty. */
    constructor FromShared(other: SharedPtr)
      requires other.Valid() && other.ctrl != null
      modifies other.ctrl
      ensures fresh(ptr) && Valid() && other.Valid() && ptr.ctrl == other.ctrl
      ensures ptr.ctrl.State() == AfterIncStrong(old(other.ctrl.State()))
      ensures ptr.ctrl.strongHolders == old(other.ctrl.strongHolders) + {ptr} && ptr.ctrl.weakHolders == old(other.ctrl.weakHolders)
    {
      ptr := new SharedPtr.Copy(other);
    }

    /** Construction from a `SharedPtr` rvalue: takes over its reference; CZ_CHECK that it is not empty. */
    constructor FromSharedMove(other: SharedPtr)
      requires other.Valid() && other.ctrl != null
      modifies other, other.ctrl
      ensures fresh(ptr) && Valid() && other.Valid() && ptr.ctrl == old(other.ctrl) && other.ctrl == null
      ensures ptr.ctrl.State() == old(other.ctrl.State())
      ensures ptr.ctrl.strongHolders == old(other.ctrl.strongHolders) - {other} + {ptr} && ptr.ctrl.weakHolders == old(other.ctrl.weakHolders)
    {
      ptr := new SharedPtr.Move(other);
    }

    /** Copy construction, and move construction too: the source is copied, never emptied. */
    constructor Copy(other: SharedRef)
      requires other.Valid()
      modifies other.ptr.ctrl
      ensures fresh(ptr) && Valid() && other.Valid() && ptr.ctrl == other.ptr.ctrl
      ensures ptr.ctrl.State() == AfterIncStrong(old(other.ptr.ctrl.State()))
      ensures ptr.ctrl.strongHolders == old(other.ptr.ctrl.strongHolders) + {ptr} && ptr.ctrl.weakHolders == old(other.ptr.ctrl.weakHolders)
    {
      ptr := new SharedPtr.Copy(other.ptr);
    }

    /** Copy assignment, and move assignment too (it copies): this stays non-empty. */
    method Assign(other: SharedRef)
      requires Valid() && other.Valid()
      modifies ptr, ptr.ctrl, other.ptr.ctrl
      ensures Valid() && other.Valid() && ptr.ctrl == other.ptr.ctrl
      ensures old(ptr.ctrl) == ptr.ctrl ==> ptr.ctrl.State() == old(ptr.ctrl.State())
      ensures old(ptr.ctrl) != ptr.ctrl ==> ptr.ctrl.State() == AfterIncStrong(old(other.ptr.ctrl.State()))
      ensures old(ptr.ctrl) != ptr.ctrl ==> old(ptr.ctrl).Inv() && old(ptr.ctrl).State() == AfterDecStrong(old(ptr.ctrl.State()))
      ensures old(ptr.ctrl) == ptr.ctrl ==> ptr.ctrl.strongHolders == old(ptr.ctrl.strongHolders) && ptr.ctrl.weakHolders == old(ptr.ctrl.weakHolders)
      ensures old(ptr.ctrl) != ptr.ctrl ==>
        ptr.ctrl.strongHolders == old(other.ptr.ctrl.strongHolders) + {ptr} && ptr.ctrl.weakHolders == old(other.ptr.ctrl.weakHolders)
      ensures old(ptr.ctrl) != ptr.ctrl ==>
        old(ptr.ctrl).strongHolders == old(ptr.ctrl.strongHolders) - {ptr} && old(ptr.ctrl).weakHolders == old(ptr.ctrl.weakHolders)
    {
      ptr.Assign(other.ptr);
    }

    /** `get()` (and `operator->`/`operator*`): never null, and the object is alive. */
    function Get(): (r: ControlBlock)
      requires Valid()
      reads this, ptr, ptr.ctrl, ptr.ctrl.strongHolders, ptr.ctrl.weakHolders
      ensures r == ptr.ctrl && r.strong >= 1 && !r.destroyed && !r.freed
    {
      ptr.ctrl
    }

    /** `use_count()`: at least 1. */
    function UseCount(): (n: nat)
      requires Valid()
      reads this, ptr, ptr.ctrl, ptr.ctrl.strongHolders, ptr.ctrl.weakHolders
      ensures n == ptr.UseCount() && n >= 1
    {
      ptr.UseCount()
    }

    /** `unique()`: the object has exactly one strong reference, this one's. */
    predicate Unique()
      reads this, ptr, ptr.ctrl
      ensures Unique() <==> ptr.ctrl != null && ptr.ctrl.strong == 1
    {
      ptr.Unique()
    }

    /** `toSharedPtr()` and the conversion to `SharedPtr`: the underlying handle, non-empty. */
    function ToSharedPtr(): (p: SharedPtr)
      requires Valid()
      reads this, ptr, ptr.ctrl, ptr.ctrl.strongHolders, ptr.ctrl.weakHolders
      ensures p == ptr && p.IsSet()
    {
      ptr
    }

    /** `swap`: both stay non-empty; no counter changes. */
    method Swap(other: SharedRef)
      requires Valid() && other.Valid()
      modifies ptr, other.ptr, ptr.ctrl, other.ptr.ctrl
      ensures Valid() && other.Valid()
      ensures ptr.ctrl == old(other.ptr.ctrl) && other.ptr.ctrl == old(ptr.ctrl)
      ensures ptr.ctrl.State() == old(other.ptr.ctrl.State()) && other.ptr.ctrl.State() == old(ptr.ctrl.State())
      ensures ptr.ctrl.weakHolders == old(other.ptr.ctrl.weakHolders) && other.ptr.ctrl.weakHolders == old(ptr.ctrl.weakHolders)
      ensures ptr != other.ptr && old(ptr.ctrl) != old(other.ptr.ctrl) ==>
        ptr.ctrl.strongHolders == old(other.ptr.ctrl.strongHolders) - {other.ptr} + {ptr} &&
        other.ptr.ctrl.strongHolders == old(ptr.ctrl.strongHolders) - {ptr} + {other.ptr}
      ensures ptr == other.ptr || old(ptr.ctrl) == old(other.ptr.ctrl) ==> ptr.ctrl.strongHolders == old(ptr.ctrl.strongHolders)
    {
      ptr.Swap(other.ptr);
    }
  }

  /** `operator==` between two `SharedRef`s: the objects are the same. */
  predicate EqualRef(left: SharedRef, right: SharedRef)
    reads left, right, left.ptr, right.ptr
    ensures EqualRef(left, right) <==> left.ptr.ctrl == right.ptr.ctrl
  {
    Equal(left.ptr, right.ptr)
  }

  /** `makeSharedRef`: `makeShared` wrapped in a `SharedRef`; the object has use count 1. */
  method MakeSharedRef() returns (r: SharedRef)
    ensures fresh(r) && fresh(r.ptr) && fresh(r.ptr.ctrl) && r.Valid() && r.UseCount() == 1
    ensures r.ptr.ctrl.strongHolders == {r.ptr} && r.ptr.ctrl.weakHolders == {}
  {
    var p := MakeShared();
    r := new SharedRef.FromSharedMove(p);
  }

  /**
   * `static_pointer_cast` on a `SharedRef`: cast the underlying handle, CZ_CHECK the result
   * (it cannot fail, other being non-empty), and copy it into a new `SharedRef`; the cast
   * handle's destruction drops its reference. Net: one more strong reference, the new one's.
   */
  method StaticPointerCastRef(other: SharedRef) returns (r: SharedRef)
    requires other.Valid()
    modifies other.ptr.ctrl
    ensures fresh(r) && fresh(r.ptr) && r.Valid() && other.Valid() && EqualRef(r, other)
    ensures r.ptr.ctrl.State() == AfterIncStrong(old(other.ptr.ctrl.State()))
    ensures r.ptr.ctrl.strongHolders == old(other.ptr.ctrl.strongHolders) + {r.ptr}
    ensures r.ptr.ctrl.weakHolders == old(other.ptr.ctrl.weakHolders)
  {
    var casted := StaticPointerCast(other.ToSharedPtr());
    r := new SharedRef.FromShared(casted);
    casted.Release();
  }

  /**
   * `static_pointer_cast` on a `SharedRef` rvalue: it copies (it does not move), so other keeps
   * its reference, and the result is as for the lvalue overload.
   */
  method StaticPointerCastRefMove(other: SharedRef) returns (r: SharedRef)
    requires other.Valid()
    modifies other.ptr.ctrl
    ensures fresh(r) && fresh(r.ptr) && r.Valid() && other.Valid() && EqualRef(r, other)
    ensures r.ptr.ctrl.State() == AfterIncStrong(old(other.ptr.ctrl.State()))
    ensures r.ptr.ctrl.strongHolders == old(other.ptr.ctrl.strongHolders) + {r.ptr}
    ensures r.ptr.ctrl.weakHolders == old(other.ptr.ctrl.weakHolders)
  {
    var tmp := new SharedPtr.Copy(other.ToSharedPtr());
    var casted := StaticPointerCast(tmp);
    r := new SharedRef.FromShared(casted);
    casted.Release();
    tmp.Release();
  }
  /** Reassigning the only strong handle elsewhere expires, but keeps valid, a weak handle on the old object. */
  method ReassignExpiresWeak() returns (p: SharedPtr, w: WeakPtrImpl)
    ensures p.Valid() && p.UseCount() == 2 && w.Valid() && w.Expired() && w.WeakUseCount() == 1
  {
    p := MakeShared();
    w := new WeakPtrImpl.FromShared(false, p);
    var q := MakeShared();
    p.Assign(q);
  }

  /** `lock()` on a live object: the original and the locked handle both hold it, and the weak handle stays valid. */
  method LockSharesOwnership() returns (p: SharedPtr, w: WeakPtrImpl, q: SharedPtr)
    ensures p.Valid() && q.Valid() && w.Valid() && Equal(p, q) && p.UseCount() == 2 && w.WeakUseCount() == 1
  {
    p := MakeShared();
    w := new WeakPtrImpl.FromShared(false, p);
    q := w.Lock();
  }

  /** `tryGet()` on an expired object: that observer empties, and another observer of the block stays valid. */
  method TryGetExpiredLeavesOthers() returns (o1: WeakPtrImpl, o2: WeakPtrImpl, r: ControlBlock?)
    ensures r == null && o1.ctrl == null && o2.Valid() && o2.Expired() && o2.WeakUseCount() == 1
  {
    var p := MakeShared();
    o1 := new WeakPtrImpl.FromShared(true, p);
    o2 := new WeakPtrImpl.FromShared(true, p);
    p.Release();
    r := o1.TryGet();
  }

  /** Copying a new `SharedRef`: two references to the same object. */
  method CopySharedRef() returns (a: SharedRef, b: SharedRef)
    ensures a.Valid() && b.Valid() && EqualRef(a, b) && a.UseCount() == 2
  {
    a := MakeSharedRef();
    b := new SharedRef.Copy(a);
  }
}
