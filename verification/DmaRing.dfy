/**
 * One DMA channel of Source/dev/dma.c.  The driver bumps JOB_PTR, writes the descriptor and sets GO;
 * the engine works through the latched jobs in order and bumps DONE_PTR.  Both pointers are only a
 * few bits wide, so they stand for the unbounded job count modulo M.
 *
 * Hardware assumptions: GO latches the descriptor into a FIFO, jobs run one at a time in issue order,
 * each finished job adds one to DONE_PTR, and a copy reads its whole source before it writes.
 */
module DmaRing {
  import opened Words
  import opened Arith

  datatype Job = Copy(dst: nat, src: nat, len: nat) | Fill(dst: nat, value: Byte, len: nat)

  predicate Fits(j: Job, size: nat) {
    j.dst + j.len <= size && (j.Copy? ==> j.src + j.len <= size)
  }

  function Apply(mem: seq<Byte>, j: Job): (r: seq<Byte>)
    requires Fits(j, |mem|)
    ensures |r| == |mem|
  {
    var data := if j.Copy? then mem[j.src..j.src + j.len] else seq(j.len, _ => j.value);
    mem[..j.dst] + data + mem[j.dst + j.len..]
  }

  /** w is v with the destination of a copy replaced by the source bytes of v, in order. */
  ghost predicate Copied(v: seq<Byte>, w: seq<Byte>, dst: nat, src: nat, n: nat)
    requires dst + n <= |v| && src + n <= |v|
  {
    && |w| == |v|
    && (forall a :: dst <= a < dst + n ==> w[a] == v[src + (a - dst)])
    && (forall a :: 0 <= a < |v| && !(dst <= a < dst + n) ==> w[a] == v[a])
  }

  /** w is v with every byte of the destination set to `value`. */
  ghost predicate Filled(v: seq<Byte>, w: seq<Byte>, dst: nat, value: Byte, n: nat)
    requires dst + n <= |v|
  {
    && |w| == |v|
    && (forall a :: dst <= a < dst + n ==> w[a] == value)
    && (forall a :: 0 <= a < |v| && !(dst <= a < dst + n) ==> w[a] == v[a])
  }

  /** What a job does to memory, byte by byte. */
  ghost predicate DoneTo(v: seq<Byte>, w: seq<Byte>, j: Job)
    requires Fits(j, |v|)
  {
    if j.Copy? then Copied(v, w, j.dst, j.src, j.len) else Filled(v, w, j.dst, j.value, j.len)
  }

  lemma ApplyBytes(v: seq<Byte>, j: Job)
    requires Fits(j, |v|)
    ensures DoneTo(v, Apply(v, j), j)
  {
  }

  lemma DoneOneWay(v: seq<Byte>, w: seq<Byte>, r: seq<Byte>, j: Job)
    requires Fits(j, |v|) && DoneTo(v, w, j) && DoneTo(v, r, j)
    ensures w == r
  {
    if j.Copy? {
      assert Copied(v, w, j.dst, j.src, j.len) && Copied(v, r, j.dst, j.src, j.len);
    } else {
      assert Filled(v, w, j.dst, j.value, j.len) && Filled(v, r, j.dst, j.value, j.len);
    }
    forall a | 0 <= a < |v| ensures w[a] == r[a] { }
  }

  lemma JobBytes(v: seq<Byte>, w: seq<Byte>, j: Job)
    requires Fits(j, |v|)
    ensures w == Apply(v, j) <==> DoneTo(v, w, j)
  {
    ApplyBytes(v, j);
    if DoneTo(v, w, j) { DoneOneWay(v, w, Apply(v, j), j); }
  }

  predicate AllFit(jobs: seq<Job>, size: nat) { forall j :: j in jobs ==> Fits(j, size) }

  function ApplyAll(mem: seq<Byte>, jobs: seq<Job>): (r: seq<Byte>)
    requires AllFit(jobs, |mem|)
    ensures |r| == |mem|
    decreases |jobs|
  {
    if jobs == [] then mem else ApplyAll(Apply(mem, jobs[0]), jobs[1..])
  }

  lemma {:induction false} ApplySplit(mem: seq<Byte>, jobs: seq<Job>, k: nat)
    requires AllFit(jobs, |mem|) && k <= |jobs|
    ensures AllFit(jobs[..k], |mem|) && AllFit(jobs[k..], |mem|)
    ensures ApplyAll(mem, jobs) == ApplyAll(ApplyAll(mem, jobs[..k]), jobs[k..])
    decreases k
  {
    if k == 0 {
      assert jobs[..0] == [] && jobs[0..] == jobs;
    } else {
      ApplySplit(Apply(mem, jobs[0]), jobs[1..], k - 1);
      assert jobs[1..][..k - 1] == jobs[..k][1..] && jobs[1..][k - 1..] == jobs[k..];
    }
  }

  lemma OneJob(mem: seq<Byte>, j: Job)
    requires Fits(j, |mem|)
    ensures AllFit([j], |mem|) && ApplyAll(mem, [j]) == Apply(mem, j)
  {
    assert [j][1..] == [];
  }

  lemma OnlyJob(mem: seq<Byte>, j: Job)
    requires Fits(j, |mem|)
    ensures AllFit([] + [j], |mem|)
    ensures DoneTo(mem, ApplyAll(mem, [] + [j]), j)
  {
    assert [] + [j] == [j];
    OneJob(mem, j);
    JobBytes(mem, Apply(mem, j), j);
  }

  /** Appending a job appends its effect. */
  lemma PushJob(v: seq<Byte>, q: seq<Job>, j: Job)
    requires AllFit(q, |v|) && Fits(j, |v|)
    ensures AllFit(q + [j], |v|) && ApplyAll(v, q + [j]) == Apply(ApplyAll(v, q), j)
  {
    ApplySplit(v, q + [j], |q|);
    assert (q + [j])[..|q|] == q && (q + [j])[|q|..] == [j];
    OneJob(ApplyAll(v, q), j);
  }

  // ---------------------------------------------------------------- the pointers

  /** Equal pointers mean that the number of outstanding jobs is a multiple of M, and no more than that. */
  lemma PointersEqualIff(M: nat, issued: nat, finished: nat)
    requires M > 0 && finished <= issued
    ensures issued % M == finished % M <==> (issued - finished) % M == 0
    ensures issued - finished < M ==> (issued % M == finished % M <==> issued == finished)
  {
    ModEqIff(issued, finished, M);
    if issued - finished < M { ModUnique(issued - finished, M, 0, issued - finished); }
  }

  /**
   * So the spin can end while jobs are left exactly when M or more of them are outstanding: only then does the
   * engine's pointer pass JOB_PTR's value before it has caught up.
   */
  lemma SpinCanEndEarlyIff(M: nat, issued: nat, finished: nat)
    requires M > 0 && finished <= issued
    ensures (exists f :: finished <= f < issued && f % M == issued % M) <==> issued - finished >= M
  {
    if issued - finished >= M {
      PointersEqualIff(M, issued, issued - M);
      assert M % M == 0;
      assert (issued - M) % M == issued % M;
    } else {
      forall f | finished <= f < issued ensures f % M != issued % M { PointersEqualIff(M, issued, f); }
    }
  }

  /** How many jobs were issued after job `idx`, from its handle. */
  lemma HandleIsDistance(M: nat, issued: nat, idx: nat)
    requires idx < issued <= idx + M
    ensures (issued % M - idx % M - 1) % M == issued - idx - 1
  {
    var t := idx / M - issued / M;
    assert issued == issued / M * M + issued % M && idx == idx / M * M + idx % M;
    assert t * M == idx / M * M - issued / M * M;
    ModUnique(issued % M - idx % M - 1, M, t, issued - idx - 1);
  }

  /** The handle test: job `idx` is done iff it lies at or before the done pointer, on the wrapped scale. */
  lemma HandleFinishedIff(M: nat, issued: nat, finished: nat, idx: nat)
    requires finished <= issued < finished + M && idx < issued <= idx + M
    ensures idx < finished <==> (issued % M - idx % M - 1) % M >= (issued % M - finished % M) % M
  {
    ModSub(issued, finished, M);
    HandleIsDistance(M, issued, idx);
  }

  /** The handles of the first n jobs. */
  function Numbered(M: nat, n: nat): (h: seq<nat>)
    requires M > 0
    ensures |h| == n
  {
    if n == 0 then [] else Numbered(M, n - 1) + [(n - 1) % M]
  }

  lemma {:induction false} NumberedAt(M: nat, n: nat, i: nat)
    requires M > 0 && i < n
    ensures Numbered(M, n)[i] == i % M
  {
    if i < n - 1 { NumberedAt(M, n - 1, i); }
  }

  // ---------------------------------------------------------------- the channel

  class Channel {
    const M: nat
    var jobPtr: nat
    var donePtr: nat
    var mode: nat
    var value: Byte
    var src: nat
    var dst: nat
    var len: nat
    var queue: seq<Job>
    var mem: seq<Byte>
    ghost var handles: seq<nat>   // JOB_PTR as each job found it
    ghost var issued: nat
    ghost var finished: nat

    /** Pointers and counts agree; `extra` counts a job whose pointer is bumped but which is not latched yet. */
    ghost predicate Counts(extra: nat)
      reads this`jobPtr, this`donePtr, this`queue, this`mem, this`handles, this`issued, this`finished
    {
      && M > 0
      && issued == finished + |queue| + extra
      && jobPtr == issued % M && donePtr == finished % M
      && handles == Numbered(M, issued)
      && AllFit(queue, |mem|)
    }

    ghost predicate Valid()
      reads this`jobPtr, this`donePtr, this`queue, this`mem, this`handles, this`issued, this`finished
    {
      Counts(0)
    }

    constructor (M: nat, mem: seq<Byte>)
      requires M > 0
      ensures Valid() && this.M == M && this.mem == mem && queue == [] && handles == []
    {
      this.M := M;
      this.mem := mem;
      jobPtr, donePtr, mode, value, src, dst, len := 0, 0, 0, 0, 0, 0, 0;
      queue := [];
      handles, issued, finished := [], 0, 0;
    }

    /** The engine finishes its first job. */
    method FinishOne(ghost extra: nat)
      requires Counts(extra) && queue != []
      modifies this`queue, this`mem, this`donePtr, this`finished
      ensures Counts(extra) && queue == old(queue)[1..] && mem == Apply(old(mem), old(queue)[0])
      ensures finished == old(finished) + 1
    {
      assert queue[0] in queue;
      mem := Apply(mem, queue[0]);
      queue := queue[1..];
      ModAdd(finished, 1, M);
      donePtr := (donePtr + 1) % M;
      finished := finished + 1;
    }

    /** What the engine may have done: a prefix of the jobs `q` on memory `m`. */
    ghost predicate Advanced(m: seq<Byte>, q: seq<Job>)
      reads this`queue, this`mem
    {
      && |mem| == |m| && AllFit(q, |m|) && |queue| <= |q| && queue == q[|q| - |queue|..]
      && AllFit(q[..|q| - |queue|], |m|) && mem == ApplyAll(m, q[..|q| - |queue|])
    }

    /** Between two register accesses the engine finishes any number of jobs. */
    method Engine(ghost extra: nat, ghost m: seq<Byte>, ghost q: seq<Job>)
      requires Counts(extra) && Advanced(m, q)
      modifies this`queue, this`mem, this`donePtr, this`finished
      ensures Counts(extra) && Advanced(m, q) && |queue| <= |old(queue)|
    {
      var steps :| 0 <= steps <= |queue|;
      while steps > 0
        invariant 0 <= steps <= |queue| <= |old(queue)|
        invariant Counts(extra) && Advanced(m, q)
      {
        AdvanceOne(mem, queue, m, q);
        FinishOne(extra);
        steps := steps - 1;
      }
    }

    /** The register stores of a copy, up to GO; returns JOB_PTR as it was before. */
    method IssueCopy(dst: nat, src: nat, n: nat, ghost m: seq<Byte>, ghost q: seq<Job>) returns (doneID: nat)
      requires Valid() && Advanced(m, q) && Fits(Copy(dst, src, n), |mem|)
      modifies this
      ensures Valid() && Advanced(m, q + [Copy(dst, src, n)]) && |queue| <= |old(queue)| + 1
      ensures doneID == old(jobPtr) && handles == old(handles) + [doneID]
    {
      doneID := jobPtr;
      BumpJobPtr();
      Engine(1, m, q);
      DescribeCopy(dst, src, n, m, q);
      Go(m, q);
    }

    /** The last two descriptor stores, which copies and fills share. */
    method SetDestination(dst: nat, n: nat, ghost m: seq<Byte>, ghost q: seq<Job>)
      requires Counts(1) && Advanced(m, q)
      modifies this`dst, this`len, this`queue, this`mem, this`donePtr, this`finished
      ensures Counts(1) && Advanced(m, q) && |queue| <= |old(queue)| && this.dst == dst && len == n
    {
      this.dst := dst;
      Engine(1, m, q);
      len := n;
      Engine(1, m, q);
    }

    method DescribeCopy(dst: nat, src: nat, n: nat, ghost m: seq<Byte>, ghost q: seq<Job>)
      requires Counts(1) && Advanced(m, q)
      modifies this`mode, this`src, this`dst, this`len, this`queue, this`mem, this`donePtr, this`finished
      ensures Counts(1) && Advanced(m, q) && |queue| <= |old(queue)| && Latched() == Copy(dst, src, n)
    {
      mode := 0;
      Engine(1, m, q);
      this.src := src;
      Engine(1, m, q);
      SetDestination(dst, n, m, q);
    }

    /** The register stores of a fill, up to GO; SRC keeps its old value. */
    method IssueFill(dst: nat, val: Byte, n: nat, ghost m: seq<Byte>, ghost q: seq<Job>) returns (doneID: nat)
      requires Valid() && Advanced(m, q) && Fits(Fill(dst, val, n), |mem|)
      modifies this
      ensures Valid() && Advanced(m, q + [Fill(dst, val, n)]) && |queue| <= |old(queue)| + 1
      ensures doneID == old(jobPtr) && handles == old(handles) + [doneID]
    {
      doneID := jobPtr;
      BumpJobPtr();
      Engine(1, m, q);
      DescribeFill(dst, val, n, m, q);
      Go(m, q);
    }

    method DescribeFill(dst: nat, val: Byte, n: nat, ghost m: seq<Byte>, ghost q: seq<Job>)
      requires Counts(1) && Advanced(m, q)
      modifies this`value, this`mode, this`dst, this`len, this`queue, this`mem, this`donePtr, this`finished
      ensures Counts(1) && Advanced(m, q) && |queue| <= |old(queue)| && Latched() == Fill(dst, val, n)
    {
      value := val;
      Engine(1, m, q);
      mode := 1;
      Engine(1, m, q);
      SetDestination(dst, n, m, q);
    }

    method BumpJobPtr()
      requires Valid()
      modifies this`jobPtr, this`handles, this`issued
      ensures Counts(1) && handles == old(handles) + [old(jobPtr)]
    {
      handles := handles + [jobPtr];
      ModAdd(issued, 1, M);
      jobPtr := (jobPtr + 1) % M;
      issued := issued + 1;
    }

    /** GO latches whatever the descriptor registers hold. */
    function Latched(): Job
      reads this`mode, this`dst, this`src, this`len, this`value
    {
      if mode == 0 then Copy(dst, src, len) else Fill(dst, value, len)
    }

    method Go(ghost m: seq<Byte>, ghost q: seq<Job>)
      requires Counts(1) && Advanced(m, q) && Fits(Latched(), |mem|)
      modifies this`queue
      ensures Valid() && Advanced(m, q + [old(Latched())]) && |queue| == |old(queue)| + 1
    {
      ghost var r := q + [Latched()];
      assert r[..|q| - |queue|] == q[..|q| - |queue|] && queue + [Latched()] == r[|q| - |queue|..];
      queue := queue + [Latched()];
    }

    /** The spin on DONE_PTR; a poll that sees no progress changes nothing and is not modelled. */
    method AwaitDone(ghost m: seq<Byte>, ghost q: seq<Job>)
      requires Valid() && Advanced(m, q)
      modifies this`queue, this`mem, this`donePtr, this`finished
      ensures Valid() && Advanced(m, q) && |queue| % M == 0
      ensures |old(queue)| < M ==> queue == []
    {
      PointersTell();
      while donePtr != jobPtr
        invariant Valid() && Advanced(m, q) && |queue| <= |old(queue)|
        invariant donePtr == jobPtr <==> |queue| % M == 0
        invariant |queue| < M ==> (donePtr == jobPtr <==> queue == [])
        decreases |queue|
      {
        AdvanceOne(mem, queue, m, q);
        FinishOne(0);
        Engine(0, m, q);
        PointersTell();
      }
    }

    /** `BDmaMemCpy_isr`; `BDmaMemCpy_rtos` is the same inside a critical section. */
    method MemCpy(dst: nat, src: nat, n: nat)
      requires Valid() && Fits(Copy(dst, src, n), |mem|)
      modifies this
      ensures Valid() && Advanced(old(mem), old(queue) + [Copy(dst, src, n)]) && |queue| % M == 0
      ensures |old(queue)| + 1 < M ==>
                AllFit(old(queue) + [Copy(dst, src, n)], |old(mem)|)
                && queue == [] && mem == ApplyAll(old(mem), old(queue) + [Copy(dst, src, n)])
      ensures old(queue) == [] && M > 1 ==> queue == [] && Copied(old(mem), mem, dst, src, n)
    {
      ghost var m, q := mem, queue;
      StartsHere(m, q);
      var _ := IssueCopy(dst, src, n, m, q);
      AwaitDone(m, q + [Copy(dst, src, n)]);
      if queue == [] { AllDone(m, q, Copy(dst, src, n)); }
    }

    /** `BDmaMemCpy_isr_async`: the handle is JOB_PTR before the bump, the job's number modulo M. */
    method MemCpyAsync(dst: nat, src: nat, n: nat) returns (doneID: nat)
      requires Valid() && Fits(Copy(dst, src, n), |mem|)
      modifies this
      ensures Valid() && Advanced(old(mem), old(queue) + [Copy(dst, src, n)])
      ensures doneID == |old(handles)| % M && handles == old(handles) + [doneID]
    {
      StartsHere(mem, queue);
      doneID := IssueCopy(dst, src, n, mem, queue);
    }

    /** `BDmaMemSet_isr`. */
    method MemSet(dst: nat, val: Byte, n: nat)
      requires Valid() && Fits(Fill(dst, val, n), |mem|)
      modifies this
      ensures Valid() && Advanced(old(mem), old(queue) + [Fill(dst, val, n)]) && |queue| % M == 0
      ensures |old(queue)| + 1 < M ==>
                AllFit(old(queue) + [Fill(dst, val, n)], |old(mem)|)
                && queue == [] && mem == ApplyAll(old(mem), old(queue) + [Fill(dst, val, n)])
      ensures old(queue) == [] && M > 1 ==> queue == [] && Filled(old(mem), mem, dst, val, n)
    {
      ghost var m, q := mem, queue;
      StartsHere(m, q);
      var _ := IssueFill(dst, val, n, m, q);
      AwaitDone(m, q + [Fill(dst, val, n)]);
      if queue == [] { AllDone(m, q, Fill(dst, val, n)); }
    }

    /** `BDmaMemSet_isr_async`. */
    method MemSetAsync(dst: nat, val: Byte, n: nat) returns (doneID: nat)
      requires Valid() && Fits(Fill(dst, val, n), |mem|)
      modifies this
      ensures Valid() && Advanced(old(mem), old(queue) + [Fill(dst, val, n)])
      ensures doneID == |old(handles)| % M && handles == old(handles) + [doneID]
    {
      StartsHere(mem, queue);
      doneID := IssueFill(dst, val, n, mem, queue);
    }

    /** The handles returned for any M consecutive jobs are distinct. */
    lemma HandlesDistinct(i: nat, j: nat)
      requires Valid() && i < j < i + M && j < |handles|
      ensures handles[i] != handles[j]
    {
      NumberedAt(M, issued, i);
      NumberedAt(M, issued, j);
      PointersEqualIff(M, j, i);
    }

    /** The handle of one of the last M jobs names it: with JOB_PTR it gives the job's number. */
    lemma HandleNamesJob(idx: nat)
      requires Valid() && idx < |handles| <= idx + M
      ensures idx == |handles| - 1 - (jobPtr - handles[idx] - 1) % M
    {
      NumberedAt(M, issued, idx);
      HandleIsDistance(M, issued, idx);
    }

    /** The handle test read off the pointers: below M outstanding and younger jobs it says which jobs are finished. */
    lemma HandleTest(idx: nat)
      requires Valid() && |queue| < M && idx < |handles| <= idx + M
      ensures idx < |handles| - |queue| <==> (jobPtr - handles[idx] - 1) % M >= (jobPtr - donePtr) % M
    {
      NumberedAt(M, issued, idx);
      HandleFinishedIff(M, issued, finished, idx);
    }

    /**
     * What the test says about memory: the jobs `q` are the ones from number `first` on, issued on memory `m`.
     * Exactly a prefix of them has been applied, and a job is in that prefix iff its handle passes the test.
     */
    lemma HandleSoundness(m: seq<Byte>, q: seq<Job>, first: nat, idx: nat)
      requires Valid() && Advanced(m, q) && |handles| == first + |q| && |queue| < M
      requires first <= idx < |handles| <= idx + M
      ensures var k := |q| - |queue|;
              && AllFit(q[..k], |m|) && mem == ApplyAll(m, q[..k])
              && (idx - first < k <==> (jobPtr - handles[idx] - 1) % M >= (jobPtr - donePtr) % M)
    {
      HandleTest(idx);
    }

    /** With nothing left, all the jobs are done; a job that was alone has done to memory what it says. */
    lemma AllDone(m: seq<Byte>, q: seq<Job>, j: Job)
      requires Advanced(m, q + [j]) && queue == []
      ensures AllFit(q + [j], |m|) && mem == ApplyAll(m, q + [j])
      ensures q == [] ==> Fits(j, |m|) && DoneTo(m, mem, j)
    {
      var r := q + [j];
      assert r[..|r|] == r && r[|q|] == j;
      if q == [] { OnlyJob(m, j); }
    }

    lemma PointersTell()
      requires Valid()
      ensures donePtr == jobPtr <==> |queue| % M == 0
      ensures |queue| < M ==> (donePtr == jobPtr <==> queue == [])
    {
      PointersEqualIff(M, issued, finished);
    }

    lemma StartsHere(m: seq<Byte>, q: seq<Job>)
      requires Valid() && m == mem && q == queue
      ensures Advanced(m, q)
    {
    }
  }

  lemma Slide(q: seq<Job>, queue: seq<Job>)
    requires 0 < |queue| <= |q| && queue == q[|q| - |queue|..]
    ensures var k := |q| - |queue|;
            q[..k + 1] == q[..k] + [queue[0]] && queue[1..] == q[k + 1..] && queue[0] in q
  {
    assert queue[0] == q[|q| - |queue|];
  }

  lemma AdvanceOne(mem: seq<Byte>, queue: seq<Job>, m: seq<Byte>, q: seq<Job>)
    requires AllFit(q, |m|) && 0 < |queue| <= |q| && queue == q[|q| - |queue|..]
    requires AllFit(q[..|q| - |queue|], |m|) && mem == ApplyAll(m, q[..|q| - |queue|])
    ensures var k := |q| - |queue| + 1;
            queue[1..] == q[k..] && AllFit(q[..k], |m|) && Fits(queue[0], |mem|) && Apply(mem, queue[0]) == ApplyAll(m, q[..k])
  {
    Slide(q, queue);
    PushJob(m, q[..|q| - |queue|], queue[0]);
  }
}
