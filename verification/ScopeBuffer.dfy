/** The capture buffer of the scope: a ring that runs until a post-mortem trigger, and then fills up
    once more and stops. */
module ScopeBuffer {
  datatype Status = Disabled | Idle | Buffering | Postmortem

  /** The samples, the position of the index pointer from the start of the buffer, and the status. */
  datatype Scope = Scope(data: seq<real>, idx: int, status: Status)

  predicate InRange(b: Scope) { 0 <= b.idx <= |b.data| - 1 }

  function Insert(b: Scope, x: real): (r: Scope)
    ensures |r.data| == |b.data|
  {
    if !InRange(b) then b.(idx := 0, status := Disabled)
    else if b.status == Buffering then
      b.(data := b.data[b.idx := x], idx := if b.idx == |b.data| - 1 then 0 else b.idx + 1)
    else if b.status == Postmortem then
      if b.idx < |b.data| - 1 then b.(data := b.data[b.idx := x], idx := b.idx + 1)
      else b.(idx := 0, status := Disabled)
    else b
  }

  function InsertAll(b: Scope, xs: seq<real>): (r: Scope)
    ensures |r.data| == |b.data|
    decreases |xs|
  {
    if xs == [] then b else Insert(InsertAll(b, xs[..|xs| - 1]), xs[|xs| - 1])
  }

  /** The ring read from the index on: oldest sample first. */
  function Unrolled(b: Scope): (r: seq<real>)
    requires InRange(b)
    ensures |r| == |b.data|
  {
    b.data[b.idx..] + b.data[..b.idx]
  }

  /** One insertion drops the oldest sample and adds the newest. */
  lemma Slides(b: Scope, x: real)
    requires InRange(b) && b.status == Buffering
    ensures
      var b' := Insert(b, x);
      InRange(b') && b'.status == Buffering && Unrolled(b') == Unrolled(b)[1..] + [x]
  {
    var b', r := Insert(b, x), Unrolled(b);
    assert forall k :: 0 <= k < |b.data| - 1 ==> Unrolled(b')[k] == r[k + 1];
    assert Unrolled(b') == r[1..] + [x];
  }

  /** While buffering, the ring read from the index on is the last samples inserted, preceded by
      whatever of the old contents they have not yet pushed out. */
  lemma {:induction false} BufferingHoldsLast(b: Scope, xs: seq<real>)
    requires InRange(b) && b.status == Buffering
    ensures
      var b' := InsertAll(b, xs);
      && InRange(b') && b'.status == Buffering
      && Unrolled(b') == (Unrolled(b) + xs)[|xs|..]
      && (b.idx == 0 ==> b'.idx <= |xs|)
    decreases |xs|
  {
    if xs == [] {
      assert (Unrolled(b) + xs)[0..] == Unrolled(b);
    } else {
      var n := |xs| - 1;
      BufferingHoldsLast(b, xs[..n]);
      Slides(InsertAll(b, xs[..n]), xs[n]);
      SlideOn(Unrolled(b), xs, n);
    }
  }

  lemma SlideOn(r: seq<real>, xs: seq<real>, n: nat)
    requires n + 1 == |xs| && r != []
    ensures (r + xs[..n])[n..][1..] + [xs[n]] == (r + xs)[n + 1..]
  {
    assert r + xs == (r + xs[..n]) + [xs[n]];
  }

  /** From the start, after at least as many insertions as there are slots: exactly the last samples,
      the oldest at the index. */
  lemma RingHoldsLast(data: seq<real>, xs: seq<real>)
    requires 1 <= |data| <= |xs|
    ensures
      var b := InsertAll(Scope(data, 0, Buffering), xs);
      InRange(b) && Unrolled(b) == xs[|xs| - |data|..] && b.data[b.idx] == xs[|xs| - |data|]
  {
    hide InsertAll, Unrolled;
    var b := Scope(data, 0, Buffering);
    BufferingHoldsLast(b, xs);
    UnrolledStart(data);
    LastOf(data, xs);
    OldestFirst(InsertAll(b, xs));
  }

  lemma LastOf(data: seq<real>, xs: seq<real>)
    requires |data| <= |xs|
    ensures (data + xs)[|xs|..] == xs[|xs| - |data|..]
  {}

  lemma OldestFirst(b: Scope)
    requires InRange(b)
    ensures Unrolled(b)[0] == b.data[b.idx]
  {}

  /** After the trigger the samples go into the slots up to the last but one, then the buffer stops;
      the sample that stops it is not kept. */
  lemma {:induction false} PostmortemFills(b: Scope, ps: seq<real>)
    requires InRange(b) && b.status == Postmortem
    ensures
      var last := |b.data| - 1;
      InsertAll(b, ps) ==
      if b.idx + |ps| <= last then Scope(b.data[..b.idx] + ps + b.data[b.idx + |ps|..], b.idx + |ps|, Postmortem)
      else Scope(b.data[..b.idx] + ps[..last - b.idx] + b.data[last..], 0, Disabled)
    decreases |ps|
  {
    hide InsertAll, Insert;
    InsertAllNext(b, ps);
    if ps == [] {
      assert b.data[..b.idx] + ps + b.data[b.idx..] == b.data;
    } else {
      var n, last := |ps| - 1, |b.data| - 1;
      PostmortemFills(b, ps[..n]);
      InsertIs(InsertAll(b, ps[..n]), ps[n]);
      if b.idx + n < last {
        OneMore(b.data, b.idx, ps, n);
      } else {
        assert ps[..last - b.idx] == ps[..n][..last - b.idx];
        if b.idx + n == last {
          assert ps[..n][..last - b.idx] == ps[..n];
        }
      }
    }
  }

  lemma InsertAllNext(b: Scope, xs: seq<real>)
    ensures xs == [] ==> InsertAll(b, xs) == b
    ensures xs != [] ==> InsertAll(b, xs) == Insert(InsertAll(b, xs[..|xs| - 1]), xs[|xs| - 1])
  {}

  /** The steps after the trigger. */
  lemma InsertIs(b: Scope, x: real)
    requires InRange(b)
    ensures b.status == Disabled ==> Insert(b, x) == b
    ensures b.status == Postmortem && b.idx < |b.data| - 1 ==>
              Insert(b, x) == b.(data := b.data[b.idx := x], idx := b.idx + 1)
    ensures b.status == Postmortem && b.idx == |b.data| - 1 ==> Insert(b, x) == b.(idx := 0, status := Disabled)
  {}

  lemma OneMore(d: seq<real>, i: nat, ps: seq<real>, n: nat)
    requires n + 1 == |ps| && i + n < |d|
    ensures (d[..i] + ps[..n] + d[i + n..])[i + n := ps[n]] == d[..i] + ps + d[i + |ps|..]
  {}

  lemma {:induction false} DisabledStays(b: Scope, xs: seq<real>)
    requires InRange(b) && b.status == Disabled
    ensures InsertAll(b, xs) == b
    decreases |xs|
  {
    if xs != [] {
      DisabledStays(b, xs[..|xs| - 1]);
    }
  }

  function Trigger(b: Scope): Scope { b.(status := Postmortem) }

  /** A capture: samples before the trigger, samples after it. Once as many have come after it as
      there are slots the buffer is disabled, and stays as it is; all slots but the last then hold
      consecutive samples in the order of time, from those before the trigger to those after. */
  lemma CaptureIsConsecutive(data: seq<real>, xs: seq<real>, ps: seq<real>, more: seq<real>)
    requires 1 <= |data| <= |ps|
    ensures
      var last := |data| - 1;
      var b := InsertAll(Scope(data, 0, Buffering), xs);
      var done := InsertAll(Trigger(b), ps);
      && done.status == Disabled && done.idx == 0
      && 0 <= b.idx <= last && b.idx <= |xs|
      && done.data[..last] == (xs + ps)[|xs| - b.idx..|xs| - b.idx + last]
      && InsertAll(done, more) == done
  {
    hide InsertAll, Unrolled, Insert;
    var b0 := Scope(data, 0, Buffering);
    UnrolledStart(data);
    BufferingHoldsLast(b0, xs);
    var b := InsertAll(b0, xs);
    PostmortemFills(Trigger(b), ps);
    var done := InsertAll(Trigger(b), ps);
    DisabledStays(done, more);
    Newest(data, xs, b);
    BeforeAndAfter(b.data, b.idx, xs, ps);
  }

  lemma UnrolledStart(data: seq<real>)
    requires data != []
    ensures Unrolled(Scope(data, 0, Buffering)) == data
  {}

  lemma BeforeAndAfter(d: seq<real>, i: nat, xs: seq<real>, ps: seq<real>)
    requires i < |d| <= |ps| && i <= |xs| && d[..i] == xs[|xs| - i..]
    ensures
      var last := |d| - 1;
      (d[..i] + ps[..last - i] + d[last..])[..last] == (xs + ps)[|xs| - i..|xs| - i + last]
  {}

  /** The slots below the index hold the newest samples. */
  lemma Newest(data: seq<real>, xs: seq<real>, b: Scope)
    requires InRange(b) && |b.data| == |data| && b.idx <= |xs|
    requires Unrolled(b) == (data + xs)[|xs|..]
    ensures b.data[..b.idx] == xs[|xs| - b.idx..]
  {
    var n := |data|;
    forall k | 0 <= k < b.idx
      ensures b.data[k] == xs[|xs| - b.idx + k]
    {
      assert Unrolled(b)[n - b.idx + k] == b.data[k];
      assert (data + xs)[|xs|..][n - b.idx + k] == (data + xs)[|xs| + n - b.idx + k];
    }
  }

  class Buffer {
    const data: array<real>
    var idx: int
    var status: Status

    ghost function State(): Scope
      reads this, data
    {
      Scope(data[..], idx, status)
    }

    /** Index and status are left to the caller. */
    constructor (data: array<real>, idx: int, status: Status)
      ensures this.data == data && State() == Scope(data[..], idx, status)
    {
      this.data, this.idx, this.status := data, idx, status;
    }

    method Enable()
      modifies this`status
      ensures State() == old(State()).(status := Idle)
    {
      status := Idle;
    }

    method Disable()
      modifies this`status
      ensures State() == old(State()).(status := Disabled)
    {
      status := Disabled;
    }

    method PostmortemTrigger()
      modifies this`status
      ensures State() == Trigger(old(State()))
    {
      status := Postmortem;
    }

    method InsertSample(x: real) returns (s: Status)
      modifies this`idx, this`status, data
      ensures State() == Insert(old(State()), x) && s == status
    {
      if 0 <= idx && idx <= data.Length - 1 {
        if status == Buffering {
          data[idx] := x;
          var was := idx;
          idx := idx + 1;
          if was == data.Length - 1 {
            idx := 0;
          }
        } else if status == Postmortem {
          if idx < data.Length - 1 {
            data[idx] := x;
            idx := idx + 1;
          } else {
            idx := 0;
            status := Disabled;
          }
        }
      } else {
        idx := 0;
        status := Disabled;
      }
      s := status;
    }

    /** Whether any sample lies outside the tolerance; the index goes back to the start. */
    method TestLimits(value: real, tol: real) returns (outside: bool)
      modifies this`idx
      ensures outside <==> exists k :: 0 <= k < data.Length && !(value - tol <= data[k] <= value + tol)
      ensures State() == old(State()).(idx := 0)
    {
      idx := 0;
      while idx <= data.Length - 1
        invariant 0 <= idx <= data.Length
        invariant forall k :: 0 <= k < idx ==> value - tol <= data[k] <= value + tol
      {
        var samp := data[idx];
        idx := idx + 1;
        if samp < value - tol || samp > value + tol {
          idx := 0;
          return true;
        }
      }
      idx := 0;
      outside := false;
    }
  }
}
