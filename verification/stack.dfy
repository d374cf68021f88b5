/**
 * A stack of fixed capacity over an array: `ptr` is the index of the top
 * element, or None when the stack is empty.
 */
module Stacks {
  import opened Wrappers

  /** The slot the next push writes: one past the top, or 0 on an empty stack. */
  function PosToAdd(ptr: Option<nat>): (n: nat)
    ensures ptr.None? <==> n == 0
    ensures ptr.Some? ==> n > ptr.value
  {
    match ptr
    case None => 0
    case Some(t) => t + 1
  }

  class Stack<T> {
    var inner: array<T>
    var ptr: Option<nat>

    /** The top index, when there is one, lies inside the array. */
    ghost predicate Valid()
      reads this
    {
      PosToAdd(ptr) <= inner.Length
    }

    /** The elements on the stack, bottom first. */
    ghost function Contents(): (s: seq<T>)
      reads this, inner
      requires Valid()
      ensures |s| == PosToAdd(ptr)
    {
      inner[..PosToAdd(ptr)]
    }

    /** `Default::default`, provided for capacities 1, 2 and 3; every slot holds `fill`. */
    constructor (capacity: nat, fill: T)
      requires 1 <= capacity <= 3
      ensures Valid() && fresh(inner)
      ensures inner.Length == capacity && ptr == None
      ensures Contents() == []
      ensures forall i :: 0 <= i < capacity ==> inner[i] == fill
    {
      inner := new T[capacity](_ => fill);
      ptr := None;
    }

    /** `incr`: the top moves one slot up, onto the slot `PosToAdd` named. */
    method Incr()
      modifies this
      ensures ptr == Some(old(PosToAdd(ptr)))
      ensures PosToAdd(ptr) == old(PosToAdd(ptr)) + 1
      ensures inner == old(inner)
    {
      ptr := Some(PosToAdd(ptr));
    }

    /** `decr`: the top moves one slot down; on an empty stack it is unreachable. */
    method Decr()
      requires ptr.Some?
      modifies this
      ensures PosToAdd(ptr) == old(PosToAdd(ptr)) - 1
      ensures old(ptr.value) == 0 <==> ptr.None?
      ensures inner == old(inner)
    {
      match ptr
      case Some(t) =>
        if t == 0 {
          ptr := None;
        } else {
          ptr := Some(t - 1);
        }
    }

    /**
     * `push`: on a full stack it panics (`pushed` is false and nothing changes);
     * otherwise the value goes on top and no other slot is written.
     */
    method Push(v: T) returns (pushed: bool)
      requires Valid()
      modifies this, inner
      ensures Valid() && inner == old(inner)
      ensures pushed <==> old(PosToAdd(ptr)) < inner.Length
      ensures !pushed ==> ptr == old(ptr) && inner[..] == old(inner[..])
      ensures pushed ==> Contents() == old(Contents()) + [v]
      ensures pushed ==> inner[..] == old(inner[..])[old(PosToAdd(ptr)) := v]
      ensures pushed ==> Current() == Some(v)
    {
      var pos := PosToAdd(ptr);
      if pos >= inner.Length {
        return false;
      }
      inner[pos] := v;
      Incr();
      pushed := true;
    }

    /** `pop`: None on an empty stack; otherwise the top element, which leaves the stack. */
    method Pop() returns (r: Option<T>)
      requires Valid()
      modifies this
      ensures Valid() && inner == old(inner)
      ensures old(Contents()) == [] ==> r == None && ptr == None
      ensures old(Contents()) != [] ==> r == Some(old(Contents())[|old(Contents())| - 1])
      ensures old(Contents()) != [] ==> Contents() == old(Contents())[..|old(Contents())| - 1]
    {
      match ptr {
        case None =>
          return None;
        case Some(pos) =>
          var ret := inner[pos];
          Decr();
          r := Some(ret);
      }
    }

    /** `current`: the top element, if any. */
    function Current(): (r: Option<T>)
      reads this, inner
      requires Valid()
      ensures Contents() == [] <==> r.None?
      ensures r.Some? ==> r.value == Contents()[|Contents()| - 1]
    {
      match ptr
      case None => None
      case Some(pos) => Some(inner[pos])
    }
  }

  /** A push followed by a pop hands the pushed value back and restores the stack. */
  method PushThenPop<T>(s: Stack<T>, v: T) returns (pushed: bool, r: Option<T>)
    requires s.Valid()
    modifies s, s.inner
    ensures s.Valid()
    ensures pushed <==> old(|s.Contents()|) < s.inner.Length
    ensures pushed ==> r == Some(v) && s.Contents() == old(s.Contents()) && s.ptr == old(s.ptr)
  {
    pushed := s.Push(v);
    r := None;
    if pushed {
      r := s.Pop();
    }
  }
}
