/** Environments: frames of name bindings linked to an outer frame. Every frame of a run
    lives in one arena and is named by its index, so a closure captures an index and
    frames are shared exactly as the source shares Environment pointers. The arena also
    counts the objects allocated so far, which gives closures and return signals their
    identity. */
module Environments {
  import opened Base
  import opened Objects

  /** One Environment: its store and the index of its outer frame (nil when None). A
      store entry may hold nil, as a Go map of interfaces may. */
  datatype Frame = Frame(store: map<string, Option<Value>>, outer: Option<nat>)

  /** The whole mutable state: every frame ever created, and the allocation counter. */
  datatype Heap = Heap(frames: seq<Frame>, allocs: nat)

  /** The result of Get: the object found (possibly nil) and ok, or not found. */
  datatype Binding = Bound(obj: Option<Value>) | Unbound

  /** Outer frames are created before the frames they enclose. */
  predicate ChainOk(frames: seq<Frame>)
  {
    forall i :: 0 <= i < |frames| && frames[i].outer.Some? ==> frames[i].outer.value < i
  }

  /** Every closure inside `v` captures one of the first `n` frames. */
  predicate ValueOk(v: Value, n: nat)
  {
    match v
    case Closure(_, _, env, _) => env < n
    case ReturnValue(inner, _) => inner.None? || ValueOk(inner.value, n)
    case Array(es) => forall i :: 0 <= i < |es| ==> ValueOk(es[i], n)
    case _ => true
  }

  predicate ObjOk(o: Option<Value>, n: nat)
  {
    o.None? || ValueOk(o.value, n)
  }

  predicate AllOk(objs: seq<Option<Value>>, n: nat)
  {
    forall i :: 0 <= i < |objs| ==> ObjOk(objs[i], n)
  }

  lemma AllOkMono(objs: seq<Option<Value>>, n: nat, m: nat)
    requires AllOk(objs, n) && n <= m
    ensures AllOk(objs, m)
  {
    forall i | 0 <= i < |objs|
      ensures ObjOk(objs[i], m)
    {
      ObjOkMono(objs[i], n, m);
    }
  }

  predicate StoreOk(store: map<string, Option<Value>>, n: nat)
  {
    forall name :: name in store ==> ObjOk(store[name], n)
  }

  /** A well-formed heap: an acyclic chain, and no stored closure refers to a frame that
      does not exist. */
  predicate HeapOk(h: Heap)
  {
    ChainOk(h.frames) && forall i :: 0 <= i < |h.frames| ==> StoreOk(h.frames[i].store, |h.frames|)
  }

  /** Creating frames never invalidates a value: its closures still refer to existing frames. */
  lemma {:induction false} ValueOkMono(v: Value, n: nat, m: nat)
    requires ValueOk(v, n) && n <= m
    ensures ValueOk(v, m)
    decreases v
  {
    match v
    case ReturnValue(inner, _) =>
      if inner.Some? {
        ValueOkMono(inner.value, n, m);
      }
    case Array(es) =>
      forall i | 0 <= i < |es|
        ensures ValueOk(es[i], m)
      {
        ValueOkMono(es[i], n, m);
      }
    case _ =>
  }

  lemma ObjOkMono(o: Option<Value>, n: nat, m: nat)
    requires ObjOk(o, n) && n <= m
    ensures ObjOk(o, m)
  {
    if o.Some? {
      ValueOkMono(o.value, n, m);
    }
  }

  // ----- Get -----

  /** Environment.Get: the local binding if there is one, else the outer frame's answer,
      else not found. */
  function Get(frames: seq<Frame>, e: nat, name: string): (r: Binding)
    requires e < |frames| && ChainOk(frames)
    decreases e
  {
    if name in frames[e].store then Bound(frames[e].store[name])
    else if frames[e].outer.Some? then Get(frames, frames[e].outer.value, name)
    else Unbound
  }

  /** Frame `j` is on the chain Get walks from `e`: `e` itself or a frame on its outer's
      chain. Such a frame is never newer than `e`. */
  predicate OnChain(frames: seq<Frame>, e: nat, j: int)
    requires e < |frames| && ChainOk(frames)
    ensures OnChain(frames, e, j) ==> 0 <= j <= e
    decreases e
  {
    j == e || (frames[e].outer.Some? && OnChain(frames, frames[e].outer.value, j))
  }

  /** Get reports not-found exactly when no frame on the chain holds the name; otherwise
      it yields the binding of the innermost (most recently created) frame that holds it. */
  lemma {:induction false} GetIsInnermost(frames: seq<Frame>, e: nat, name: string)
    requires e < |frames| && ChainOk(frames)
    ensures Get(frames, e, name).Unbound?
        <==> forall j :: OnChain(frames, e, j) ==> name !in frames[j].store
    ensures Get(frames, e, name).Bound? ==>
              exists j :: OnChain(frames, e, j) && name in frames[j].store
                && Get(frames, e, name) == Bound(frames[j].store[name])
                && forall i :: OnChain(frames, e, i) && i > j ==> name !in frames[i].store
    decreases e
  {
    if name in frames[e].store {
      assert OnChain(frames, e, e);
    } else if frames[e].outer.Some? {
      var o := frames[e].outer.value;
      GetIsInnermost(frames, o, name);
      assert forall i :: OnChain(frames, e, i) && i != e ==> OnChain(frames, o, i);
      if Get(frames, o, name).Bound? {
        var j :| OnChain(frames, o, j) && name in frames[j].store
                && Get(frames, o, name) == Bound(frames[j].store[name])
                && forall i :: OnChain(frames, o, i) && i > j ==> name !in frames[i].store;
        assert OnChain(frames, e, j);
      }
    }
  }

  /** An inner binding shadows every outer one. */
  lemma Shadowing(frames: seq<Frame>, e: nat, name: string)
    requires e < |frames| && ChainOk(frames) && name in frames[e].store
    ensures Get(frames, e, name) == Bound(frames[e].store[name])
  {
  }

  /** A name absent locally is looked up in the outer frame, and a frame with no outer
      frame reports it not found. */
  lemma GetDelegates(frames: seq<Frame>, e: nat, name: string)
    requires e < |frames| && ChainOk(frames) && name !in frames[e].store
    ensures frames[e].outer.Some? ==> Get(frames, e, name) == Get(frames, frames[e].outer.value, name)
    ensures frames[e].outer.None? ==> Get(frames, e, name) == Unbound
  {
  }

  /** In a well-formed heap, whatever Get finds refers only to existing frames. */
  lemma {:induction false} GetObjOk(h: Heap, e: nat, name: string)
    requires HeapOk(h) && e < |h.frames|
    ensures Get(h.frames, e, name).Bound? ==> ObjOk(Get(h.frames, e, name).obj, |h.frames|)
    decreases e
  {
    if name !in h.frames[e].store && h.frames[e].outer.Some? {
      GetObjOk(h, h.frames[e].outer.value, name);
    }
  }

  // ----- the state-changing operations, as functions of the heap -----

  /** NewEnvironment: one more frame, empty, with no outer frame. */
  function NewEnvironmentF(h: Heap): (r: (nat, Heap))
  {
    (|h.frames|, h.(frames := h.frames + [Frame(map[], None)]))
  }

  /** NewEnclosedEnvironment(outer): one more frame, empty, enclosed by `outer`. */
  function NewEnclosedF(h: Heap, outer: nat): (r: (nat, Heap))
  {
    (|h.frames|, h.(frames := h.frames + [Frame(map[], Some(outer))]))
  }

  /** Set: bind `name` to `obj` in frame `e`'s own store. */
  function SetF(h: Heap, e: nat, name: string, obj: Option<Value>): (r: Heap)
    requires e < |h.frames|
  {
    h.(frames := h.frames[e := h.frames[e].(store := h.frames[e].store[name := obj])])
  }

  /** The next object allocation: its identity, and the heap that has counted it. */
  function AllocateF(h: Heap): (r: (nat, Heap))
  {
    (h.allocs, h.(allocs := h.allocs + 1))
  }

  /** A new top-level frame is empty and encloses nothing: every name is unbound there,
      and no existing frame changes. */
  lemma NewEnvironmentEmpty(h: Heap, name: string)
    requires ChainOk(h.frames)
    ensures var (e, h2) := NewEnvironmentF(h);
            e < |h2.frames| && ChainOk(h2.frames) && Get(h2.frames, e, name) == Unbound
            && h2.frames[..|h.frames|] == h.frames
  {
  }

  /** A new enclosed frame is empty, so every lookup in it answers as the outer frame does. */
  lemma NewEnclosedDelegates(h: Heap, outer: nat, name: string)
    requires ChainOk(h.frames) && outer < |h.frames|
    ensures var (e, h2) := NewEnclosedF(h, outer);
            e < |h2.frames| && ChainOk(h2.frames) && h2.frames[e].outer == Some(outer)
            && Get(h2.frames, e, name) == Get(h.frames, outer, name)
  {
    var (e, h2) := NewEnclosedF(h, outer);
    assert h2.frames[e] == Frame(map[], Some(outer));
    AppendKeepsGet(h.frames, Frame(map[], Some(outer)), outer, name);
  }

  /** Appending a frame leaves every lookup from an existing frame unchanged. */
  lemma {:induction false} AppendKeepsGet(frames: seq<Frame>, f: Frame, e: nat, name: string)
    requires ChainOk(frames) && ChainOk(frames + [f]) && e < |frames|
    ensures Get(frames + [f], e, name) == Get(frames, e, name)
    decreases e
  {
    var fs := frames + [f];
    assert fs[e] == frames[e];
    if name !in frames[e].store && frames[e].outer.Some? {
      AppendKeepsGet(frames, f, frames[e].outer.value, name);
    }
  }

  /** After Set(name, obj) in frame `e`, Get(name) from `e` yields obj. */
  lemma SetThenGet(h: Heap, e: nat, name: string, obj: Option<Value>)
    requires e < |h.frames| && ChainOk(h.frames)
    ensures ChainOk(SetF(h, e, name, obj).frames)
    ensures Get(SetF(h, e, name, obj).frames, e, name) == Bound(obj)
  {
  }

  /** Set(name, ...) changes no lookup of another name, from any frame. */
  lemma {:induction false} SetKeepsOtherNames(h: Heap, e: nat, name: string, obj: Option<Value>, j: nat, other: string)
    requires e < |h.frames| && j < |h.frames| && ChainOk(h.frames) && other != name
    ensures ChainOk(SetF(h, e, name, obj).frames)
    ensures Get(SetF(h, e, name, obj).frames, j, other) == Get(h.frames, j, other)
    decreases j
  {
    var fs := SetF(h, e, name, obj).frames;
    assert other in fs[j].store <==> other in h.frames[j].store;
    if other !in h.frames[j].store && h.frames[j].outer.Some? {
      SetKeepsOtherNames(h, e, name, obj, h.frames[j].outer.value, other);
    }
  }

  /** Set writes only its own frame: a lookup from any frame whose chain does not pass
      through `e` (in particular from every outer frame of `e`) is unchanged. */
  lemma {:induction false} SetKeepsOtherChains(h: Heap, e: nat, name: string, obj: Option<Value>, j: nat, n: string)
    requires e < |h.frames| && j < |h.frames| && ChainOk(h.frames) && !OnChain(h.frames, j, e)
    ensures ChainOk(SetF(h, e, name, obj).frames)
    ensures Get(SetF(h, e, name, obj).frames, j, n) == Get(h.frames, j, n)
    decreases j
  {
    var fs := SetF(h, e, name, obj).frames;
    assert fs[j] == h.frames[j];
    if n !in h.frames[j].store && h.frames[j].outer.Some? {
      SetKeepsOtherChains(h, e, name, obj, h.frames[j].outer.value, n);
    }
  }

  /** Frames older than `e` are never on a chain through `e`, so Set in `e` leaves every
      lookup from them unchanged. */
  lemma SetKeepsOlderFrames(h: Heap, e: nat, name: string, obj: Option<Value>, j: nat, n: string)
    requires e < |h.frames| && j < e && ChainOk(h.frames)
    ensures ChainOk(SetF(h, e, name, obj).frames)
    ensures Get(SetF(h, e, name, obj).frames, j, n) == Get(h.frames, j, n)
  {
    SetKeepsOtherChains(h, e, name, obj, j, n);
  }

  // ----- the heap invariant is kept -----

  lemma NewEnvironmentOk(h: Heap)
    requires HeapOk(h)
    ensures HeapOk(NewEnvironmentF(h).1)
  {
    var h2 := NewEnvironmentF(h).1;
    forall i | 0 <= i < |h2.frames|
      ensures StoreOk(h2.frames[i].store, |h2.frames|)
    {
      if i < |h.frames| {
        forall name | name in h2.frames[i].store
          ensures ObjOk(h2.frames[i].store[name], |h2.frames|)
        {
          ObjOkMono(h.frames[i].store[name], |h.frames|, |h2.frames|);
        }
      }
    }
  }

  lemma NewEnclosedOk(h: Heap, outer: nat)
    requires HeapOk(h) && outer < |h.frames|
    ensures HeapOk(NewEnclosedF(h, outer).1)
  {
    var h2 := NewEnclosedF(h, outer).1;
    forall i | 0 <= i < |h2.frames|
      ensures StoreOk(h2.frames[i].store, |h2.frames|)
    {
      if i < |h.frames| {
        forall name | name in h2.frames[i].store
          ensures ObjOk(h2.frames[i].store[name], |h2.frames|)
        {
          ObjOkMono(h.frames[i].store[name], |h.frames|, |h2.frames|);
        }
      }
    }
  }

  lemma SetOk(h: Heap, e: nat, name: string, obj: Option<Value>)
    requires HeapOk(h) && e < |h.frames| && ObjOk(obj, |h.frames|)
    ensures HeapOk(SetF(h, e, name, obj))
  {
  }

  // ----- the mutable arena -----

  /** Every Environment of a run, updated in place. */
  class Environments {
    var frames: seq<Frame>
    var allocs: nat

    ghost predicate Valid()
      reads this
    {
      HeapOk(Heap(frames, allocs))
    }

    function State(): Heap
      reads this
    {
      Heap(frames, allocs)
    }

    constructor ()
      ensures frames == [] && allocs == 0 && Valid()
    {
      frames := [];
      allocs := 0;
    }

    /** NewEnvironment: an empty frame with no outer frame. */
    method NewEnvironment() returns (e: nat)
      requires Valid()
      modifies this
      ensures Valid()
      ensures (e, State()) == NewEnvironmentF(old(State()))
    {
      NewEnvironmentOk(State());
      e := |frames|;
      frames := frames + [Frame(map[], None)];
    }

    /** NewEnclosedEnvironment: an empty frame enclosed by `outer`. */
    method NewEnclosedEnvironment(outer: nat) returns (e: nat)
      requires Valid() && outer < |frames|
      modifies this
      ensures Valid()
      ensures (e, State()) == NewEnclosedF(old(State()), outer)
    {
      NewEnclosedOk(State(), outer);
      e := |frames|;
      frames := frames + [Frame(map[], Some(outer))];
    }

    /** Set: writes frame `e`'s store in place and returns the object. */
    method Set(e: nat, name: string, obj: Option<Value>) returns (r: Option<Value>)
      requires Valid() && e < |frames| && ObjOk(obj, |frames|)
      modifies this
      ensures Valid()
      ensures r == obj && State() == SetF(old(State()), e, name, obj)
    {
      SetOk(State(), e, name, obj);
      frames := frames[e := frames[e].(store := frames[e].store[name := obj])];
      r := obj;
    }

    /** Counts one more allocated object and returns its identity. */
    method Allocate() returns (id: nat)
      requires Valid()
      modifies this
      ensures Valid()
      ensures (id, State()) == AllocateF(old(State()))
    {
      id := allocs;
      allocs := allocs + 1;
    }

    /** Environment.Get on frame `e`. */
    function Lookup(e: nat, name: string): (r: Binding)
      reads this
      requires e < |frames| && ChainOk(frames)
      ensures r == Get(frames, e, name)
    {
      Get(frames, e, name)
    }
  }
}
