/** The circular buffer behind an overflow subscription: an array with a head and a count, which
    refines a bounded sequence, and a one-slot wake-up channel. */
module OverflowBuffer {

  /** The i-th place from the head, wrapped around. */
  function Slot(head: nat, i: nat, cap: nat): (k: nat)
    requires head < cap && i <= cap
    ensures k < cap && k == if head + i < cap then head + i else head + i - cap
  {
    WrapOnce(head + i, cap);
    (head + i) % cap
  }

  lemma WrapOnce(x: nat, cap: nat)
    requires x < 2 * cap
    ensures x % cap == if x < cap then x else x - cap
  {
    var q := x / cap;
    assert x == q * cap + x % cap;
    assert q >= 2 ==> q * cap >= 2 * cap;
  }

  const DEFAULT_MAX_OVERFLOW := 512

  class OverflowBuffer<T> {
    const buf: array<T>
    const zero: T
    var head: nat
    var count: nat
    var notify: bool

    ghost predicate Valid()
      reads this
    {
      0 < buf.Length && head < buf.Length && count <= buf.Length
    }

    /** Oldest first, wherever the head stands. */
    ghost function Contents(): (s: seq<T>)
      requires Valid()
      reads this, buf
    {
      seq(count, i requires 0 <= i < count && Valid() reads this, buf => buf[Slot(head, i, buf.Length)])
    }

    constructor (maxSize: int, zero: T)
      ensures Valid() && Contents() == [] && !notify && fresh(buf)
      ensures buf.Length == if maxSize <= 0 then DEFAULT_MAX_OVERFLOW else maxSize
    {
      var size := if maxSize <= 0 then DEFAULT_MAX_OVERFLOW else maxSize;
      buf := new T[size](_ => zero);
      this.zero := zero;
      head, count, notify := 0, 0, false;
    }

    method Push(env: T) returns (ok: bool)
      requires Valid()
      modifies this, buf
      ensures Valid() && ok == (|old(Contents())| < buf.Length)
      ensures Contents() == if ok then old(Contents()) + [env] else old(Contents())
      ensures notify == (old(notify) || ok)
    {
      if count >= buf.Length { return false; }
      var idx := Slot(head, count, buf.Length);
      buf[idx] := env;
      count := count + 1;
      notify := true;
      ok := true;
    }

    method Pop() returns (env: T, ok: bool)
      requires Valid()
      modifies this, buf
      ensures Valid() && ok == (old(Contents()) != []) && notify == old(notify)
      ensures ok ==> [env] + Contents() == old(Contents())
      ensures !ok ==> env == zero && Contents() == old(Contents())
    {
      if count == 0 { return zero, false; }
      env := buf[head];
      ghost var was := Contents();
      buf[head] := zero;
      head := Slot(head, 1, buf.Length);
      count := count - 1;
      assert forall i :: 0 <= i < count ==> Contents()[i] == was[i + 1];
      assert was == [env] + was[1..];
      ok := true;
    }
  }
}
