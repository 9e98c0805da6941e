/** The restartable gather (libblink/blink/avx2.c). */
module Gather {

  type Byte = b: nat | b < 256

  /** Elements are four or eight bytes. */
  predicate IsSize(size: nat) {
    size == 4 || size == 8
  }

  /** Where element i starts. */
  function At(size: nat, i: nat): nat {
    if size == 8 then 8 * i else 4 * i
  }

  /** The element byte j belongs to. */
  function ElementOf(size: nat, j: nat): nat {
    if size == 8 then j / 8 else j / 4
  }

  /** The element's bytes in memory, which an attempt may or may not be able to read. */
  type Memory = nat -> seq<Byte>

  /** The destination and the mask, 32 bytes each, the upper half of a register after its lower. */
  datatype State = State(dst: seq<Byte>, mask: seq<Byte>) {
    predicate Valid() {
      |dst| == 32 && |mask| == 32
    }
  }

  /** What a gather is told: the size and number of its elements, and what memory holds for each. */
  datatype Job = Job(size: nat, count: nat, memory: Memory) {
    ghost predicate Valid() {
      && IsSize(size)
      && At(size, count) <= 32
      && forall i :: |memory(i)| == size
    }
  }

  /** An element is selected by the top bit of its mask. */
  predicate Selected(job: Job, s: State, i: nat)
    requires job.Valid() && s.Valid() && i < job.count
  {
    s.mask[At(job.size, i) + job.size - 1] >= 128
  }

  /** The mask all ones or all zeros in each element, and nothing past the last element. */
  function Normalized(job: Job, s: State): (r: State)
    requires job.Valid() && s.Valid()
    ensures r.Valid()
  {
    var total := At(job.size, job.count);
    State(seq(32, j requires 0 <= j < 32 => if j < total then s.dst[j] else 0),
          seq(32, j requires 0 <= j < 32 =>
            if j < total && Selected(job, s, ElementOf(job.size, j)) then 255 else 0))
  }

  /** After the elements below f were gathered, and none from f on. */
  function Attempted(job: Job, s: State, f: nat): (r: State)
    requires job.Valid() && s.Valid() && f <= job.count
    ensures r.Valid()
  {
    var n := Normalized(job, s);
    State(seq(32, j requires 0 <= j < 32 =>
            var i := ElementOf(job.size, j);
            if i < f && Selected(job, s, i) then job.memory(i)[j - At(job.size, i)] else n.dst[j]),
          seq(32, j requires 0 <= j < 32 => if ElementOf(job.size, j) < f then 0 else n.mask[j]))
  }

  /** After an uninterrupted run. */
  function Completed(job: Job, s: State): State
    requires job.Valid() && s.Valid()
  {
    Attempted(job, s, job.count)
  }

  lemma ElementsHold(size: nat, j: nat)
    requires IsSize(size)
    ensures At(size, ElementOf(size, j)) <= j < At(size, ElementOf(size, j)) + size
    ensures forall i :: At(size, i) <= j < At(size, i) + size ==> i == ElementOf(size, j)
  {
  }

  /** Normalizing selects the same elements. */
  lemma NormalizedSelects(job: Job, s: State, i: nat)
    requires job.Valid() && s.Valid() && i < job.count
    ensures Selected(job, Normalized(job, s), i) == Selected(job, s, i)
  {
    ElementsHold(job.size, At(job.size, i) + job.size - 1);
  }

  /** What an attempt gathered is no longer selected, and what it did not still is. */
  lemma AttemptedSelects(job: Job, s: State, f: nat, i: nat)
    requires job.Valid() && s.Valid() && f <= job.count && i < job.count
    ensures Selected(job, Attempted(job, s, f), i) <==> i >= f && Selected(job, s, i)
  {
    ElementsHold(job.size, At(job.size, i) + job.size - 1);
  }

  lemma NormalizingIsIdempotent(job: Job, s: State)
    requires job.Valid() && s.Valid()
    ensures Normalized(job, Normalized(job, s)) == Normalized(job, s)
  {
    forall i: nat | i < job.count
      ensures Selected(job, Normalized(job, s), i) == Selected(job, s, i)
    {
      NormalizedSelects(job, s, i);
    }
  }

  /** Attempting again from where an attempt stopped, or even from before, ends where one attempt does. */
  lemma AttemptsCompose(job: Job, s: State, f: nat, g: nat)
    requires job.Valid() && s.Valid() && f <= g <= job.count
    ensures Attempted(job, Attempted(job, s, f), g) == Attempted(job, s, g)
  {
    var a := Attempted(job, s, f);
    forall i: nat | i < job.count
      ensures Selected(job, a, i) <==> i >= f && Selected(job, s, i)
    {
      AttemptedSelects(job, s, f, i);
    }
    forall j | 0 <= j < 32 ensures 0 <= ElementOf(job.size, j) {
      ElementsHold(job.size, j);
    }
    var x, y := Attempted(job, a, g), Attempted(job, s, g);
    assert x.dst == y.dst;
    assert x.mask == y.mask;
  }

  /** Where the attempt stops: at the first selected element it cannot read. */
  ghost predicate StopsAt(job: Job, s: State, readable: nat -> bool, f: nat)
    requires job.Valid() && s.Valid()
  {
    && f <= job.count
    && (forall i :: 0 <= i < f && Selected(job, s, i) ==> readable(i))
    && (f < job.count ==> Selected(job, s, f) && !readable(f))
  }

  /** What is in place of each element of four bytes, and behind the last: its top bit is that of its byte 3. */
  lemma FourByteElements(job: Job, s: State, f: nat, j: nat)
    requires job.Valid() && s.Valid() && f <= job.count && job.size == 4 && j < 32
    ensures
      var a, i := Attempted(job, s, f), j / 4;
      if i >= job.count then a.dst[j] == a.mask[j] == 0
      else if i < f then a.mask[j] == 0 && a.dst[j] == if s.mask[4 * i + 3] >= 128 then job.memory(i)[j % 4] else s.dst[j]
      else a.dst[j] == s.dst[j] && a.mask[j] == if s.mask[4 * i + 3] >= 128 then 255 else 0
  {
  }

  lemma EightByteElements(job: Job, s: State, f: nat, j: nat)
    requires job.Valid() && s.Valid() && f <= job.count && job.size == 8 && j < 32
    ensures
      var a, i := Attempted(job, s, f), j / 8;
      if i >= job.count then a.dst[j] == a.mask[j] == 0
      else if i < f then a.mask[j] == 0 && a.dst[j] == if s.mask[8 * i + 7] >= 128 then job.memory(i)[j % 8] else s.dst[j]
      else a.dst[j] == s.dst[j] && a.mask[j] == if s.mask[8 * i + 7] >= 128 then 255 else 0
  {
  }

  /** Any number of attempts, the first stopped at fs[0] and so on. */
  function Attempts(job: Job, s: State, fs: seq<nat>): (r: State)
    requires job.Valid() && s.Valid()
    requires forall k :: 0 <= k < |fs| ==> fs[k] <= job.count
    ensures r.Valid()
    decreases |fs|
  {
    if fs == [] then s else Attempts(job, Attempted(job, s, fs[0]), fs[1..])
  }

  /** No attempt can stop before where an earlier one did. */
  lemma StopsLater(job: Job, s: State, f: nat, readable: nat -> bool, g: nat)
    requires job.Valid() && s.Valid() && f <= job.count
    requires StopsAt(job, Attempted(job, s, f), readable, g)
    ensures f <= g
  {
    if g < f {
      AttemptedSelects(job, s, f, g);
    }
  }

  /** Each attempt stops where its own faults make it; the last, that faults nowhere, is not among them. */
  ghost predicate AreAttempts(job: Job, s: State, fs: seq<nat>)
    requires job.Valid() && s.Valid()
    decreases |fs|
  {
    fs != [] ==>
      && (exists readable :: StopsAt(job, s, readable, fs[0]))
      && AreAttempts(job, Attempted(job, s, fs[0]), fs[1..])
  }

  lemma {:induction false} AttemptsStop(job: Job, s: State, fs: seq<nat>)
    requires job.Valid() && s.Valid() && AreAttempts(job, s, fs)
    ensures forall k :: 0 <= k < |fs| ==> fs[k] <= job.count
    decreases |fs|
  {
    if fs != [] {
      AttemptsStop(job, Attempted(job, s, fs[0]), fs[1..]);
    }
  }

  /**
    A gather interrupted by faults any number of times, and then run to its end, leaves what one
    uninterrupted run leaves.
   */
  lemma {:induction false} InterruptedGathersComplete(job: Job, s: State, fs: seq<nat>)
    requires job.Valid() && s.Valid() && AreAttempts(job, s, fs)
    ensures forall k :: 0 <= k < |fs| ==> fs[k] <= job.count
    ensures Completed(job, Attempts(job, s, fs)) == Completed(job, s)
    decreases |fs|
  {
    AttemptsStop(job, s, fs);
    if fs != [] {
      InterruptedGathersComplete(job, Attempted(job, s, fs[0]), fs[1..]);
      AttemptsCompose(job, s, fs[0], job.count);
    }
  }

  /** A completed gather has an empty mask, so running it again changes nothing. */
  lemma CompletedIsFinal(job: Job, s: State)
    requires job.Valid() && s.Valid()
    ensures Completed(job, Completed(job, s)) == Completed(job, s)
    ensures forall j :: 0 <= j < 32 ==> Completed(job, s).mask[j] == 0
  {
    AttemptsCompose(job, s, job.count, job.count);
  }

  // ---------------------------------------------------------------------------------------------
  // The instruction
  // ---------------------------------------------------------------------------------------------

  /** The two registers as one state. */
  ghost function StateOf(dst: array<Byte>, mask: array<Byte>): (s: State)
    reads dst, mask
  {
    State(dst[..], mask[..])
  }

  method Fill(a: array<Byte>, from: nat, to: nat, b: Byte)
    requires from <= to <= a.Length
    modifies a
    ensures forall j :: 0 <= j < a.Length ==> a[j] == if from <= j < to then b else old(a[j])
  {
    for j := from to to
      invariant forall i :: 0 <= i < a.Length ==> a[i] == if from <= i < j then b else old(a[i])
    {
      a[j] := b;
    }
  }

  /** After the elements below f were normalized. */
  function PartlyNormalized(job: Job, s: State, f: nat): seq<Byte>
    requires job.Valid() && s.Valid() && f <= job.count
  {
    seq(32, j requires 0 <= j < 32 =>
      if ElementOf(job.size, j) >= f then s.mask[j]
      else if Selected(job, s, ElementOf(job.size, j)) then 255 else 0)
  }

  method NormalizeElement(job: Job, ghost s: State, mask: array<Byte>, f: nat)
    requires job.Valid() && s.Valid() && mask.Length == 32 && f < job.count
    requires mask[..] == PartlyNormalized(job, s, f)
    modifies mask
    ensures mask[..] == PartlyNormalized(job, s, f + 1)
  {
    var at := At(job.size, f);
    ElementsHold(job.size, at + job.size - 1);
    Fill(mask, at, at + job.size, if mask[at + job.size - 1] >= 128 then 255 else 0);
  }

  method Normalize(job: Job, dst: array<Byte>, mask: array<Byte>)
    requires job.Valid() && dst.Length == 32 && mask.Length == 32 && dst != mask
    modifies dst, mask
    ensures StateOf(dst, mask) == Normalized(job, old(StateOf(dst, mask)))
  {
    ghost var s := StateOf(dst, mask);
    for i := 0 to job.count
      invariant dst[..] == s.dst
      invariant mask[..] == PartlyNormalized(job, s, i)
    {
      NormalizeElement(job, s, mask, i);
    }
    var total := At(job.size, job.count);
    Fill(dst, total, 32, 0);
    Fill(mask, total, 32, 0);
    assert dst[..] == Normalized(job, s).dst;
    assert mask[..] == Normalized(job, s).mask;
  }

  /** One element: `done` unless it is selected and cannot be read. */
  method GatherElement(job: Job, ghost s: State, readable: nat -> bool, dst: array<Byte>, mask: array<Byte>, f: nat)
    returns (done: bool)
    requires job.Valid() && dst.Length == 32 && mask.Length == 32 && dst != mask
    requires s.Valid() && f < job.count
    requires StateOf(dst, mask) == Attempted(job, s, f)
    modifies dst, mask
    ensures done <==> (Selected(job, s, f) ==> readable(f))
    ensures StateOf(dst, mask) == Attempted(job, s, if done then f + 1 else f)
  {
    MaskTells(job, s, f);
    assert mask[At(job.size, f)] == StateOf(dst, mask).mask[At(job.size, f)];
    if mask[At(job.size, f)] == 0 {
      SkippedElement(job, s, f);
      return true;
    }
    if !readable(f) {
      return false;
    }
    LoadElement(job, s, dst, mask, f);
    done := true;
  }

  /**
    A gather into `dst` under `mask`, three different registers with the index one. `readable` says
    which elements this attempt can load; what memory holds is the job's. `f` is where it stopped.
   */
  method OpGather(job: Job, readable: nat -> bool, dst: array<Byte>, mask: array<Byte>) returns (f: nat)
    requires job.Valid() && dst.Length == 32 && mask.Length == 32 && dst != mask
    modifies dst, mask
    ensures f <= job.count
    ensures StateOf(dst, mask) == Attempted(job, old(StateOf(dst, mask)), f)
    ensures StopsAt(job, old(StateOf(dst, mask)), readable, f)
  {
    ghost var s := StateOf(dst, mask);
    Normalize(job, dst, mask);
    NothingAttempted(job, s);
    f := GatherFrom(job, s, readable, dst, mask);
  }

  /** The loop over the elements of a normalized state. */
  method GatherFrom(job: Job, ghost s: State, readable: nat -> bool, dst: array<Byte>, mask: array<Byte>)
    returns (f: nat)
    requires job.Valid() && dst.Length == 32 && mask.Length == 32 && dst != mask
    requires s.Valid() && StateOf(dst, mask) == Attempted(job, s, 0)
    modifies dst, mask
    ensures StopsAt(job, s, readable, f)
    ensures StateOf(dst, mask) == Attempted(job, s, f)
  {
    f := 0;
    var done := true;
    while f < job.count && done
      invariant f <= job.count
      invariant StateOf(dst, mask) == Attempted(job, s, f)
      invariant forall i :: 0 <= i < f && Selected(job, s, i) ==> readable(i)
      invariant !done ==> f < job.count && Selected(job, s, f) && !readable(f)
      decreases job.count - f, done
    {
      done := GatherElement(job, s, readable, dst, mask, f);
      if done {
        f := f + 1;
      }
    }
  }

  lemma NothingAttempted(job: Job, s: State)
    requires job.Valid() && s.Valid()
    ensures Attempted(job, s, 0) == Normalized(job, s)
  {
    assert Attempted(job, s, 0).dst == Normalized(job, s).dst;
    assert Attempted(job, s, 0).mask == Normalized(job, s).mask;
  }

  /** In an attempt's state the first mask byte of an element not yet gathered tells whether it is selected. */
  lemma MaskTells(job: Job, s: State, f: nat)
    requires job.Valid() && s.Valid() && f < job.count
    ensures Attempted(job, s, f).mask[At(job.size, f)] != 0 <==> Selected(job, s, f)
  {
    ElementsHold(job.size, At(job.size, f));
  }

  lemma SkippedElement(job: Job, s: State, f: nat)
    requires job.Valid() && s.Valid() && f < job.count && !Selected(job, s, f)
    ensures Attempted(job, s, f) == Attempted(job, s, f + 1)
  {
    var x, y := Attempted(job, s, f), Attempted(job, s, f + 1);
    assert x.dst == y.dst;
    assert x.mask == y.mask;
  }

  method LoadElement(job: Job, ghost s: State, dst: array<Byte>, mask: array<Byte>, f: nat)
    requires job.Valid() && dst.Length == 32 && mask.Length == 32 && dst != mask
    requires s.Valid() && f < job.count && Selected(job, s, f)
    requires StateOf(dst, mask) == Attempted(job, s, f)
    modifies dst, mask
    ensures StateOf(dst, mask) == Attempted(job, s, f + 1)
  {
    var at := At(job.size, f);
    Load(dst, at, job.memory(f));
    Fill(mask, at, at + job.size, 0);
    assert dst[..] == Attempted(job, s, f + 1).dst;
    assert mask[..] == Attempted(job, s, f + 1).mask;
  }

  method Load(a: array<Byte>, at: nat, bytes: seq<Byte>)
    requires at + |bytes| <= a.Length
    modifies a
    ensures forall j :: 0 <= j < a.Length ==>
      a[j] == if at <= j < at + |bytes| then bytes[j - at] else old(a[j])
  {
    for k := 0 to |bytes|
      invariant forall j :: 0 <= j < a.Length ==>
        a[j] == if at <= j < at + k then bytes[j - at] else old(a[j])
    {
      a[at + k] := bytes[k];
    }
  }
}
