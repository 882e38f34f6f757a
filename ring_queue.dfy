/**
 * Model of the ring-buffer queue of `src/lib.rs`: a fixed buffer of `i32`
 * slots with a write index `inp` and a read index `outp`, both advanced
 * modulo the buffer length, and the property test that compares it step by
 * step against a double-ended queue used as a first-in first-out reference.
 */
module RingQueue {
  import opened Wrappers
  import opened Counting

  newtype i32 = x: int | -0x8000_0000 <= x < 0x8000_0000

  /** `usize` on a 64-bit target. */
  const USIZE_BOUND: nat := 0x1_0000_0000_0000_0000

  /** The largest capacity the property test draws (`int_in_range(0..=10)`). */
  const LEN_MAX_BOUND: nat := 10

  /** The two ways `len` can panic. */
  datatype Panic = SubtractOverflow | RemainderByZero

  /** `k % n` for an index that has gone at most once around the buffer. */
  function Wrap(k: nat, n: nat): (r: nat)
    requires 0 < n && k < 2 * n
    ensures r < n
    ensures k < n ==> r == k
  {
    if k < n then k else k - n
  }

  /** `Wrap` is the remainder the source computes. */
  lemma WrapIsMod(k: nat, n: nat)
    requires 0 < n && k < 2 * n
    ensures Wrap(k, n) == k % n
  {
    if k < n {
      ModUnique(k, n, 0, k);
    } else {
      ModUnique(k, n, 1, k - n);
    }
  }

  /** `b` holds `q` in order from slot `first` on, wrapping around its end. */
  ghost predicate Stores(b: seq<i32>, first: nat, q: seq<i32>)
  {
    && 0 < |b| && first < |b| && |q| <= |b|
    && forall j :: 0 <= j < |q| ==> b[Wrap(first + j, |b|)] == q[j]
  }

  /** Writing just past the stored values, while there is room, stores one more. */
  lemma StoresAppend(b: seq<i32>, first: nat, q: seq<i32>, x: i32)
    requires Stores(b, first, q) && |q| < |b|
    ensures Stores(b[Wrap(first + |q|, |b|) := x], first, q + [x])
  {
  }

  /** The first stored value sits at `first`; the rest are stored from the next slot on. */
  lemma StoresTail(b: seq<i32>, first: nat, q: seq<i32>)
    requires Stores(b, first, q) && |q| > 0
    ensures b[first] == q[0]
    ensures Stores(b, Wrap(first + 1, |b|), q[1..])
  {
  }

  class Queue {
    var buf: array<i32>
    var inp: nat
    var outp: nat

    /** The sequence a first-in first-out reference holds after the same pushes and pops. */
    ghost var Contents: seq<i32>

    /** Both indices lie in `[0, buf.Length)`, and stay 0 for an empty buffer. */
    ghost predicate Valid()
      reads this
    {
      if buf.Length == 0 then inp == 0 && outp == 0 else inp < buf.Length && outp < buf.Length
    }

    /**
     * The buffer stores `Contents` in order from `outp` on, wrapping around,
     * and `inp` is the slot just after the last of them.
     */
    ghost predicate Faithful()
      reads this, buf
    {
      && Valid()
      && |Contents| <= buf.Length
      && (buf.Length > 0 ==>
            && inp == Wrap(outp + |Contents|, buf.Length)
            && Stores(buf[..], outp, Contents))
    }

    /** `Queue::new`: `size` zeroed slots, both indices at 0, nothing queued. */
    constructor (size: nat)
      requires size < USIZE_BOUND
      ensures fresh(buf) && buf.Length == size
      ensures forall j :: 0 <= j < size ==> buf[j] == 0
      ensures inp == 0 && outp == 0
      ensures Contents == []
      ensures Faithful()
    {
      buf := new i32[size](_ => 0);
      inp, outp := 0, 0;
      Contents := [];
    }

    /**
     * `push`: writes `n` at `inp` and advances `inp`; the buffer must not be
     * empty, or the index and the remainder fail. While fewer than
     * `buf.Length` values are queued, the buffer keeps representing the queue
     * with `n` appended.
     */
    method Push(n: i32)
      requires Valid()
      requires buf.Length > 0
      modifies this, buf
      ensures buf == old(buf) && Valid()
      ensures buf[..] == old(buf[..])[old(inp) := n]
      ensures inp == Wrap(old(inp) + 1, buf.Length) && outp == old(outp)
      ensures Contents == old(Contents) + [n]
      ensures old(Faithful()) && old(|Contents|) < buf.Length ==> Faithful()
    {
      ghost var keeps := Faithful() && |Contents| < buf.Length;
      if keeps {
        StoresAppend(buf[..], outp, Contents, n);
      }
      WrapIsMod(inp + 1, buf.Length);
      buf[inp] := n;
      inp := (inp + 1) % buf.Length;
      Contents := Contents + [n];
    }

    /**
     * `pop`: returns the slot at `outp` and advances `outp`; the buffer and
     * `inp` are unchanged. While something is queued, the value returned is
     * the oldest one and the buffer keeps representing the rest.
     */
    method Pop() returns (x: i32)
      requires Valid()
      requires buf.Length > 0
      modifies this
      ensures buf == old(buf) && Valid()
      ensures x == buf[old(outp)]
      ensures inp == old(inp) && outp == Wrap(old(outp) + 1, buf.Length)
      ensures Contents == if old(|Contents|) > 0 then old(Contents[1..]) else old(Contents)
      ensures old(Faithful()) && old(|Contents|) > 0 ==> Faithful() && x == old(Contents[0])
    {
      if Faithful() && |Contents| > 0 {
        StoresTail(buf[..], outp, Contents);
      }
      WrapIsMod(outp + 1, buf.Length);
      x := buf[outp];
      outp := (outp + 1) % buf.Length;
      if |Contents| > 0 {
        Contents := Contents[1..];
      }
    }

    /**
     * `len`: `(inp - outp) % buf.Length` on `usize`, which panics when the
     * subtraction underflows and then when the length is 0.
     */
    function Len(): (r: Result<nat, Panic>)
      reads this
      ensures r == Failure(SubtractOverflow) <==> inp < outp
      ensures r == Failure(RemainderByZero) <==> outp <= inp && buf.Length == 0
      ensures r.Success? ==> r.value < buf.Length
    {
      if inp < outp then Failure(SubtractOverflow)
      else if buf.Length == 0 then Failure(RemainderByZero)
      else Success((inp - outp) % buf.Length)
    }

    /**
     * `len` reports the number of queued values exactly when the buffer is
     * not empty, not full, and the write index has not wrapped back to the
     * start (`outp` plus the count stays below `buf.len()`). A value stored
     * in the last slot already sends `inp` back to 0.
     */
    lemma LenMatchesCount()
      requires Faithful()
      ensures Len() == Success(|Contents|) <==>
                buf.Length > 0 && |Contents| < buf.Length && outp + |Contents| < buf.Length
    {
    }

    /**
     * `len` panics on an empty buffer, and on a non-full queue whose write
     * index has wrapped back to the start (`outp` plus the count reaches
     * `buf.len()`), where `inp` has fallen behind `outp`.
     */
    lemma LenPanics()
      requires Faithful()
      ensures buf.Length == 0 ==> Len() == Failure(RemainderByZero)
      ensures buf.Length > 0 && |Contents| < buf.Length && outp + |Contents| >= buf.Length ==>
                Len() == Failure(SubtractOverflow)
    {
    }

    /** A full queue reports length 0. */
    lemma FullReportsZero()
      requires Faithful()
      requires buf.Length > 0 && |Contents| == buf.Length
      ensures Len() == Success(0)
    {
    }
  }

  /** One choice of the property test. */
  datatype Action = Add(x: i32) | Remove

  /** What the test knows besides the ring buffer: the reference queue and how many removals it let through. */
  datatype Reference = Reference(model: seq<i32>, pops: nat)

  /** Whether the test's guard lets `a` through when `count` values are queued. */
  predicate Enabled(lenMax: nat, count: nat, a: Action)
  {
    match a
    case Add(_) => count < lenMax
    case Remove => count > 0
  }

  /** `push_back` or `pop_front` on the reference queue, when the guard lets `a` through. */
  function Apply(lenMax: nat, q: seq<i32>, a: Action): (q': seq<i32>)
    ensures |q| <= lenMax ==> |q'| <= lenMax
  {
    if !Enabled(lenMax, |q|, a) then q
    else if a.Add? then q + [a.x]
    else q[1..]
  }

  /** One guarded step of the test's bookkeeping. */
  function Step(lenMax: nat, r: Reference, a: Action): Reference
  {
    Reference(Apply(lenMax, r.model, a), r.pops + (if a.Remove? && |r.model| > 0 then 1 else 0))
  }

  /**
   * Whether the test's length comparison succeeds in state `r`: the buffer is
   * non-empty and not full, and the write index has not wrapped back to the
   * start (the read index plus the count stays below `len_max`).
   */
  predicate Agrees(lenMax: nat, r: Reference)
  {
    lenMax > 0 && |r.model| < lenMax && Rem(r.pops, lenMax) + |r.model| < lenMax
  }

  /**
   * The first step, from step `i` on, after which the test's length
   * comparison fails, or `None` when every step passes.
   */
  function FirstFailure(lenMax: nat, r: Reference, actions: seq<Action>, i: nat): (f: Option<nat>)
    requires i <= |actions|
    ensures f.Some? ==> i <= f.value < |actions| && !Agrees(lenMax, Run(lenMax, r, actions[i..f.value + 1]))
    ensures f.Some? ==> forall k :: i < k <= f.value ==> Agrees(lenMax, Run(lenMax, r, actions[i..k]))
    ensures f.None? ==> forall k :: i < k <= |actions| ==> Agrees(lenMax, Run(lenMax, r, actions[i..k]))
    decreases |actions| - i
  {
    if i == |actions| then None
    else
      var r' := Step(lenMax, r, actions[i]);
      if !Agrees(lenMax, r') then Some(i) else FirstFailure(lenMax, r', actions, i + 1)
  }

  /** The bookkeeping after running all of `actions` from `r`. */
  function Run(lenMax: nat, r: Reference, actions: seq<Action>): Reference
    decreases |actions|
  {
    if actions == [] then r else Run(lenMax, Step(lenMax, r, actions[0]), actions[1..])
  }

  /** With capacity 0 the test fails at its first step, on the remainder by zero. */
  lemma ZeroCapacityFailsFirst(actions: seq<Action>)
    requires |actions| > 0
    ensures FirstFailure(0, Reference([], 0), actions, 0) == Some(0)
  {
  }

  /**
   * Once the values pushed so far fill the buffer exactly once round, the
   * length comparison fails: a full queue reads as empty, and after some
   * removals the write index has wrapped behind the read index.
   */
  lemma {:induction false} WrappedDisagrees(lenMax: nat, r: Reference)
    requires lenMax > 0 && |r.model| > 0 && r.pops + |r.model| == lenMax
    ensures !Agrees(lenMax, r)
  {
  }

  /** Running a non-empty list of actions is running all but the last, then one more step. */
  lemma {:induction false} RunLast(lenMax: nat, r: Reference, actions: seq<Action>)
    requires |actions| > 0
    ensures Run(lenMax, r, actions) == Step(lenMax, Run(lenMax, r, actions[..|actions| - 1]), actions[|actions| - 1])
    decreases |actions|
  {
    if |actions| > 1 {
      var rest := actions[1..];
      RunLast(lenMax, Step(lenMax, r, actions[0]), rest);
      assert rest[..|rest| - 1] == actions[..|actions| - 1][1..];
    }
  }

  /**
   * A run fails no later than the guarded push that brings the number of
   * values pushed so far up to `lenMax`.
   */
  lemma FillingPushFails(lenMax: nat, actions: seq<Action>, j: nat)
    requires j < |actions| && actions[j].Add?
    requires var s := Run(lenMax, Reference([], 0), actions[0..j]);
      |s.model| < lenMax && s.pops + |s.model| + 1 == lenMax
    ensures var f := FirstFailure(lenMax, Reference([], 0), actions, 0); f.Some? && f.value <= j
  {
    var r0 := Reference([], 0);
    RunLast(lenMax, r0, actions[0..j + 1]);
    assert actions[0..j + 1][..j] == actions[0..j];
    WrappedDisagrees(lenMax, Run(lenMax, r0, actions[0..j + 1]));
  }

  /**
   * Three small runs: one push into capacity 1 fails at once; push, pop, push
   * on capacity 2 fails at the third step; push, push, pop, pop on capacity 3
   * passes every step.
   */
  lemma SmallRuns()
    ensures FirstFailure(1, Reference([], 0), [Add(7)], 0) == Some(0)
    ensures FirstFailure(2, Reference([], 0), [Add(7), Remove, Add(8)], 0) == Some(2)
    ensures FirstFailure(3, Reference([], 0), [Add(7), Add(8), Remove, Remove], 0) == None
  {
  }

  /** Advancing the read index by one slot matches one more removal. */
  lemma {:induction false} RemSucc(p: nat, n: nat)
    requires n > 0
    ensures Wrap(Rem(p, n) + 1, n) == Rem(p + 1, n)
  {
    if p >= n {
      RemSucc(p - n, n);
    }
  }

  /** The ring buffer holds the reference queue of `r` and reads from slot `r.pops % lenMax`. */
  ghost predicate Represents(queue: Queue, lenMax: nat, r: Reference)
    reads queue, queue.buf
  {
    && queue.Faithful() && queue.buf.Length == lenMax && queue.Contents == r.model
    && (lenMax > 0 ==> queue.outp == Rem(r.pops, lenMax))
  }

  /**
   * For a queue that represents the reference state `r`, `len` agrees with
   * the reference length exactly when `Agrees` says so.
   */
  lemma LenCheckAgrees(queue: Queue, lenMax: nat, r: Reference)
    requires Represents(queue, lenMax, r)
    ensures queue.Len() == Success(|r.model|) <==> Agrees(lenMax, r)
  {
    queue.LenMatchesCount();
  }

  /**
   * One guarded step of `test_queue` on both queues: an addition while the
   * reference holds fewer than `lenMax` values, a removal while it holds
   * some, whose result must equal the reference's front.
   */
  method RunAction(queue: Queue, lenMax: nat, model: seq<i32>, ghost r: Reference, a: Action) returns (model': seq<i32>)
    requires Represents(queue, lenMax, r) && model == r.model
    modifies queue, queue.buf
    ensures queue.buf == old(queue.buf)
    ensures Represents(queue, lenMax, Step(lenMax, r, a)) && model' == Step(lenMax, r, a).model
  {
    model' := model;
    match a {
      case Add(x) =>
        if |model| < lenMax {
          model' := model + [x];
          queue.Push(x);
        }
      case Remove =>
        if |model| > 0 {
          var xModel := model[0];
          model' := model[1..];
          var x := queue.Pop();
          assert x == xModel;
          RemSucc(r.pops, lenMax);
        }
    }
  }

  /**
   * `test_queue`: runs the actions through the guards on both the ring buffer
   * and the reference queue. Every guarded removal returns the reference's
   * oldest value, and the run stops at exactly the step `FirstFailure`
   * predicts, where the buffer's `len` and the reference's length differ or
   * `len` panics.
   */
  method TestQueue(lenMax: nat, actions: seq<Action>) returns (failedAt: Option<nat>)
    requires lenMax <= LEN_MAX_BOUND
    ensures failedAt == FirstFailure(lenMax, Reference([], 0), actions, 0)
  {
    var queue := new Queue(lenMax);
    var model: seq<i32> := [];
    ghost var r := Reference([], 0);
    var i := 0;
    while i < |actions|
      invariant 0 <= i <= |actions|
      invariant fresh(queue) && fresh(queue.buf)
      invariant Represents(queue, lenMax, r) && model == r.model
      invariant FirstFailure(lenMax, r, actions, i) == FirstFailure(lenMax, Reference([], 0), actions, 0)
    {
      model := RunAction(queue, lenMax, model, r, actions[i]);
      r := Step(lenMax, r, actions[i]);
      LenCheckAgrees(queue, lenMax, r);
      if queue.Len() != Success(|model|) {
        return Some(i);
      }
      i := i + 1;
    }
    return None;
  }

  /** Two pushes followed by two pops return the values in push order. */
  method PushPopInOrder(x: i32, y: i32) returns (first: i32, second: i32)
    ensures first == x && second == y
  {
    var queue := new Queue(2);
    queue.Push(x);
    queue.Push(y);
    first := queue.Pop();
    second := queue.Pop();
  }

  /**
   * On a buffer of 3: push, pop, push, push. The two queued values sit in
   * slots 1 and 2 and do not wrap, yet storing into the last slot sends `inp`
   * back to 0, so `len` underflows; the test fails at that step.
   */
  method LastSlotUnderflows(x: i32, y: i32, z: i32) returns (len: Result<nat, Panic>)
    ensures len == Failure(SubtractOverflow)
    ensures FirstFailure(3, Reference([], 0), [Add(x), Remove, Add(y), Add(z)], 0) == Some(3)
  {
    var queue := new Queue(3);
    queue.Push(x);
    var _ := queue.Pop();
    queue.Push(y);
    queue.Push(z);
    len := queue.Len();
    ghost var actions := [Add(x), Remove, Add(y), Add(z)];
    ghost var r1 := Reference([x], 0);
    ghost var r2 := Reference([], 1);
    ghost var r3 := Reference([y], 1);
    assert Step(3, Reference([], 0), actions[0]) == r1 && Agrees(3, r1);
    assert Step(3, r1, actions[1]) == r2 && Agrees(3, r2);
    assert Step(3, r2, actions[2]) == r3 && Agrees(3, r3);
    assert Step(3, r3, actions[3]) == Reference([y, z], 1);
    assert FirstFailure(3, r3, actions, 3) == Some(3);
    assert FirstFailure(3, r2, actions, 2) == Some(3);
    assert FirstFailure(3, r1, actions, 1) == Some(3);
  }
}
