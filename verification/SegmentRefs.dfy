/**
 * The reference protocol of a segment (`lib/io.h`, SEN_IO_SEG_REF and SEN_IO_SEG_UNREF; `lib/io.c`,
 * sen_io_seg_ref and sen_io_seg_expire): one counter, changed only by atomic additions, decides
 * who maps a segment, who may use it and who may take it away.
 *
 * Every step below is one atomic access to the counter or the map pointer, by any of the threads.
 */
module SegmentRefs {
  const MAX_REF: nat := 0x8000_0000
  const TWO32: nat := 0x1_0000_0000

  /** Where a thread is. The number it read from the counter, before its addition, is kept. */
  datatype Pc =
    | Idle
    | RefAdded(nref: nat)      // ref: the counter was incremented
    | RefBack                  // ref: has to decrement it again, and to retry
    | RefMap                   // ref: maps the segment
    | RefRead                  // ref: is going to read the map pointer, which was set
    | Holding                  // between ref and unref
    | ExpAdded(nref: nat)      // expire: the counter was incremented
    | ExpBack                  // expire: has to decrement it again
    | ExpMax(nref: nat)        // expire: MAX_REF was added too
    | ExpBackMax               // expire: has to take both back, the segment is in use
    | ExpUnmap                 // expire: takes the mapping away
    | ExpClear                 // expire: has still to clear the pointer
    | ExpDone                  // expire: has to take both back

  /**
   * The counter, the map pointer, whether it points to a mapping, the threads, and how often
   * sen_io_seg_ref could not map the segment and returned without decrementing.
   */
  datatype State = State(nref: nat, map_: bool, live: bool, pcs: seq<Pc>, leaks: nat)

  /** xadd: 32-bit addition. */
  function Add(nref: nat, d: int): nat {
    (nref + d) % TWO32
  }

  /** One step of thread `i`. */
  ghost predicate Step(s: State, t: State, i: nat) {
    && i < |s.pcs| && |t.pcs| == |s.pcs| && t.pcs == s.pcs[i := t.pcs[i]]
    && var pc, pc2 := s.pcs[i], t.pcs[i];
       match pc
       case Idle =>
         && (pc2 == RefAdded(s.nref) || pc2 == ExpAdded(s.nref))
         && t == s.(nref := Add(s.nref, 1), pcs := t.pcs)
       case RefAdded(n) =>
         && t == s.(pcs := t.pcs)
         && pc2 == if n >= MAX_REF then RefBack
                   else if s.map_ then RefRead
                   else if n != 0 then RefBack
                   else RefMap
       case RefBack => pc2 == Idle && t == s.(nref := Add(s.nref, -1), pcs := t.pcs)
       case RefMap =>
         || (pc2 == RefRead && t == s.(map_ := true, live := true, pcs := t.pcs))
         || (pc2 == RefBack && t == s.(pcs := t.pcs))                      // failed, in the macro
         || (pc2 == Idle && t == s.(pcs := t.pcs, leaks := s.leaks + 1))   // failed, in the function
       case RefRead => pc2 == (if s.map_ then Holding else RefBack) && t == s.(pcs := t.pcs)
       case Holding => pc2 == Idle && t == s.(nref := Add(s.nref, -1), pcs := t.pcs)
       case ExpAdded(n) =>
         if n != 0 then pc2 == ExpBack && t == s.(pcs := t.pcs)
         else pc2 == ExpMax(s.nref) && t == s.(nref := Add(s.nref, MAX_REF), pcs := t.pcs)
       case ExpBack => pc2 == Idle && t == s.(nref := Add(s.nref, -1), pcs := t.pcs)
       case ExpMax(n) => pc2 == (if n > 1 then ExpBackMax else ExpUnmap) && t == s.(pcs := t.pcs)
       case ExpBackMax => pc2 == Idle && t == s.(nref := Add(s.nref, -(MAX_REF + 1)), pcs := t.pcs)
       case ExpUnmap => pc2 == ExpClear && t == s.(live := false, pcs := t.pcs)
       case ExpClear => pc2 == ExpDone && t == s.(map_ := false, pcs := t.pcs)
       case ExpDone => pc2 == Idle && t == s.(nref := Add(s.nref, -(MAX_REF + 1)), pcs := t.pcs)
  }

  /** What a thread has added to the counter. */
  function Weight(pc: Pc): nat {
    match pc
    case Idle => 0
    case ExpMax(_) => MAX_REF + 1
    case ExpBackMax => MAX_REF + 1
    case ExpUnmap => MAX_REF + 1
    case ExpClear => MAX_REF + 1
    case ExpDone => MAX_REF + 1
    case _ => 1
  }

  function Total(pcs: seq<Pc>): nat {
    if |pcs| == 0 then 0 else Weight(pcs[0]) + Total(pcs[1..])
  }

  lemma {:induction false} TotalUpdate(pcs: seq<Pc>, i: nat, pc: Pc)
    requires i < |pcs|
    ensures Total(pcs[i := pc]) == Total(pcs) - Weight(pcs[i]) + Weight(pc)
  {
    if i > 0 {
      TotalUpdate(pcs[1..], i - 1, pc);
      assert pcs[i := pc][1..] == pcs[1..][i - 1 := pc];
    } else {
      assert pcs[0 := pc][1..] == pcs[1..];
    }
  }

  /** With nobody else counted, the total is the weight of one thread. */
  lemma TotalAlone(pcs: seq<Pc>, i: nat)
    requires i < |pcs|
    ensures Total(pcs) >= Weight(pcs[i])
    ensures Total(pcs) == Weight(pcs[i]) ==> forall j :: 0 <= j < |pcs| && j != i ==> pcs[j] == Idle
  {
    TotalUpdate(pcs, i, Idle);
    TotalZero(pcs[i := Idle]);
    forall j | 0 <= j < |pcs| && j != i && Total(pcs) == Weight(pcs[i]) ensures pcs[j] == Idle {
      assert pcs[i := Idle][j] == Idle;
    }
  }

  lemma {:induction false} TotalZero(pcs: seq<Pc>)
    ensures Total(pcs) == 0 <==> forall j :: 0 <= j < |pcs| ==> pcs[j] == Idle
  {
    if |pcs| > 0 {
      TotalZero(pcs[1..]);
      assert forall j :: 1 <= j < |pcs| ==> pcs[j] == pcs[1..][j - 1];
    }
  }

  /** MAX_REF has been added. */
  predicate Big(pc: Pc) {
    Weight(pc) > 1
  }

  lemma {:induction false} TotalSmall(pcs: seq<Pc>)
    requires forall j :: 0 <= j < |pcs| ==> !Big(pcs[j])
    ensures Total(pcs) <= |pcs|
  {
    if |pcs| > 0 {
      assert forall j :: 0 <= j < |pcs| - 1 ==> pcs[1..][j] == pcs[j + 1];
      TotalSmall(pcs[1..]);
    }
  }

  /** Got 0 from the counter, and relies on it. */
  predicate First(pc: Pc) {
    pc == RefAdded(0) || pc == RefMap || pc == ExpAdded(0) || Big(pc)
  }

  /** About to take the mapping away, or doing so. */
  predicate Unmapping(pc: Pc) {
    pc == ExpMax(1) || pc == ExpUnmap || pc == ExpClear || pc == ExpDone
  }

  /** Uses the segment, or may still go on to use it, or to take it away. */
  predicate Using(pc: Pc) {
    pc.RefMap? || pc.RefRead? || pc.Holding? || (pc.RefAdded? && pc.nref < MAX_REF) || First(pc)
  }

  ghost predicate Exclusive(pcs: seq<Pc>) {
    && (forall i, j :: 0 <= i < |pcs| && 0 <= j < |pcs| && i != j && First(pcs[i]) ==> !First(pcs[j]))
    && (forall i, j :: 0 <= i < |pcs| && 0 <= j < |pcs| && i != j && Unmapping(pcs[i]) ==> !Using(pcs[j]))
    && (forall i :: 0 <= i < |pcs| && pcs[i].ExpMax? ==> pcs[i].nref >= 1)
  }

  /** Nobody uses the segment, or is going to, and it is not mapped. */
  ghost predicate Stuck(s: State) {
    !s.map_ && forall j :: 0 <= j < |s.pcs| ==> s.pcs[j] != Holding && s.pcs[j] != RefRead && !First(s.pcs[j])
  }

  ghost predicate Inv(s: State) {
    && |s.pcs| < MAX_REF && s.nref == Total(s.pcs) + s.leaks && s.nref < TWO32
    && Exclusive(s.pcs) && s.leaks <= 1 && (s.leaks > 0 ==> Stuck(s))
    && (s.live != s.map_ ==> s.map_ && exists i :: 0 <= i < |s.pcs| && s.pcs[i] == ExpClear)
    && (forall i :: 0 <= i < |s.pcs| && (s.pcs[i] == RefRead || s.pcs[i] == Holding) ==> s.live && s.map_)
    && (forall i :: 0 <= i < |s.pcs| && s.pcs[i] == RefMap ==> !s.live && !s.map_)
    && (forall i :: 0 <= i < |s.pcs| && s.pcs[i] == ExpClear ==> !s.live)
  }

  /** One thread at most has added MAX_REF, so the counter does not wrap around. */
  lemma NoWrap(pcs: seq<Pc>)
    requires |pcs| < MAX_REF && Exclusive(pcs)
    ensures Total(pcs) <= MAX_REF + |pcs|
    ensures (exists i :: 0 <= i < |pcs| && Big(pcs[i])) <==> Total(pcs) >= MAX_REF
  {
    if i :| 0 <= i < |pcs| && Big(pcs[i]) {
      TotalUpdate(pcs, i, Holding);
      TotalSmall(pcs[i := Holding]);
      TotalAlone(pcs, i);
    } else {
      TotalSmall(pcs);
    }
  }

  // ---------------------------------------------------------------- what every step keeps

  /** What a step does to the counter, and how a thread comes to rely on it. */
  lemma Moves(s: State, t: State, i: nat)
    requires Step(s, t, i) && s.nref < TWO32 && (s.pcs[i].ExpMax? ==> s.pcs[i].nref >= 1)
    ensures
      var pc, pc2 := s.pcs[i], t.pcs[i];
      && t.nref == Add(s.nref, Weight(pc2) + t.leaks - (Weight(pc) + s.leaks))
      && (if pc == RefMap && pc2 == Idle then t.leaks == s.leaks + 1 else t.leaks == s.leaks)
      && (First(pc2) ==> First(pc) || s.nref == 0)
      && (Using(pc2) ==> Using(pc) || s.nref < MAX_REF)
      && (Unmapping(pc2) ==> Unmapping(pc) || (Weight(pc) == 1 && s.nref == 1))
      && (pc2.ExpMax? ==> Weight(pc) == 1 && pc2.nref == s.nref)
  {}

  lemma CounterKeeps(s: State, t: State, i: nat)
    requires Inv(s) && Step(s, t, i) && Exclusive(t.pcs) && t.leaks <= 1 && (t.leaks > 0 ==> Stuck(t))
    ensures t.nref == Total(t.pcs) + t.leaks < TWO32
  {
    hide Step, Exclusive, Weight, First, Unmapping, Using, Add, Stuck;
    SameThreads(s, t, i);
    MaxRead(s, i);
    Moves(s, t, i);
    TotalUpdate(s.pcs, i, t.pcs[i]);
    NoWrap(t.pcs);
    if t.leaks > 0 {
      StuckSmall(t);
    }
    AddExact(s.nref, Weight(t.pcs[i]) + t.leaks - (Weight(s.pcs[i]) + s.leaks));
  }

  lemma StuckSmall(t: State)
    requires Stuck(t)
    ensures Total(t.pcs) <= |t.pcs|
  {
    TotalSmall(t.pcs);
  }

  lemma MaxRead(s: State, i: nat)
    requires Inv(s) && i < |s.pcs|
    ensures s.pcs[i].ExpMax? ==> s.pcs[i].nref >= 1
  {}

  lemma AddExact(n: nat, d: int)
    requires 0 <= n + d < TWO32
    ensures Add(n, d) == n + d
  {}

  lemma ExclusiveKeeps(s: State, t: State, i: nat)
    requires Inv(s) && Step(s, t, i)
    ensures Exclusive(t.pcs)
  {
    Moves(s, t, i);
    hide Step, Using;
    TotalAlone(s.pcs, i);
    TotalZero(s.pcs);
    forall j | 0 <= j < |s.pcs| && j != i
      ensures First(t.pcs[i]) ==> !First(s.pcs[j])
      ensures Unmapping(t.pcs[i]) ==> !Using(s.pcs[j])
      ensures Unmapping(s.pcs[j]) ==> !Using(t.pcs[i])
    {
      TotalAlone(s.pcs, j);
      IdleHarmless();
    }
  }

  lemma IdleHarmless()
    ensures !Using(Idle) && !First(Idle)
  {}

  lemma PointerKeeps(s: State, t: State, i: nat)
    requires Inv(s) && Step(s, t, i) && Exclusive(t.pcs)
    ensures t.live != t.map_ ==> t.map_ && exists j :: 0 <= j < |t.pcs| && t.pcs[j] == ExpClear
    ensures forall j :: 0 <= j < |t.pcs| && (t.pcs[j] == RefRead || t.pcs[j] == Holding) ==> t.live && t.map_
    ensures forall j :: 0 <= j < |t.pcs| && t.pcs[j] == RefMap ==> !t.live && !t.map_
    ensures forall j :: 0 <= j < |t.pcs| && t.pcs[j] == ExpClear ==> !t.live
  {
    hide Weight, Total, Add;
    if s.live != s.map_ {
      var j :| 0 <= j < |s.pcs| && s.pcs[j] == ExpClear;
      assert j != i ==> t.pcs[j] == ExpClear;
    }
    assert t.pcs[i] == ExpClear || t.pcs[i] != ExpClear;
    forall j | 0 <= j < |t.pcs| && j != i
      ensures t.pcs[j] == s.pcs[j]
      ensures t.pcs[j] == RefRead || t.pcs[j] == Holding ==> !Unmapping(s.pcs[i])
      ensures t.pcs[j] == RefMap ==> !First(s.pcs[i])
      ensures t.pcs[j] == ExpClear ==> !Using(s.pcs[i])
    {
    }
  }

  /** Once a reference is leaked the counter is not 0 again, so nobody comes to map the segment. */
  lemma StuckKeeps(s: State, t: State, i: nat)
    requires Inv(s) && Step(s, t, i)
    ensures t.leaks <= 1 && (t.leaks > 0 ==> Stuck(t))
  {
    Moves(s, t, i);
    hide Total, Add, Weight;
    forall j | 0 <= j < |t.pcs| && j != i ensures t.pcs[j] == s.pcs[j] {}
  }

  lemma StepKeeps(s: State, t: State, i: nat)
    requires Inv(s) && Step(s, t, i)
    ensures Inv(t)
  {
    hide Step, Exclusive, Stuck;
    ExclusiveKeeps(s, t, i);
    StuckKeeps(s, t, i);
    CounterKeeps(s, t, i);
    PointerKeeps(s, t, i);
    SameThreads(s, t, i);
  }

  lemma SameThreads(s: State, t: State, i: nat)
    requires Step(s, t, i)
    ensures i < |s.pcs| && |t.pcs| == |s.pcs| && t.pcs == s.pcs[i := t.pcs[i]]
  {}

  // ---------------------------------------------------------------- whole runs

  /** At the start nobody is in the protocol; the segment may be mapped. */
  ghost predicate Start(s: State) {
    |s.pcs| < MAX_REF && s.nref == s.leaks == 0 && s.live == s.map_ && Quiet(s)
  }

  /** No thread is in the protocol. */
  ghost predicate Quiet(s: State) {
    forall i :: 0 <= i < |s.pcs| ==> s.pcs[i] == Idle
  }

  ghost predicate SomeStep(s: State, t: State) {
    exists i :: Step(s, t, i)
  }

  /** Any number of steps, of any threads in any order. */
  ghost predicate Path(run: seq<State>) {
    && |run| > 0
    && forall j, k :: 0 <= j < |run| && 0 <= k < |run| && k == j + 1 ==> SomeStep(run[j], run[k])
  }

  ghost predicate Run(run: seq<State>) {
    Path(run) && Start(run[0])
  }

  function Last(run: seq<State>): State
    requires |run| > 0
  {
    run[|run| - 1]
  }

  lemma {:induction false} PathKeeps(run: seq<State>, k: nat)
    requires Path(run) && Inv(run[0]) && k < |run|
    ensures Inv(run[k]) && |run[k].pcs| == |run[0].pcs|
  {
    hide Step, Inv;
    if k > 0 {
      PathKeeps(run, k - 1);
      assert SomeStep(run[k - 1], run[k]);
      var i :| Step(run[k - 1], run[k], i);
      StepKeeps(run[k - 1], run[k], i);
      SameThreads(run[k - 1], run[k], i);
    }
  }

  lemma RunKeeps(run: seq<State>, k: nat)
    requires Run(run) && k < |run|
    ensures Inv(run[k]) && |run[k].pcs| == |run[0].pcs|
  {
    hide Step, Inv;
    StartOk(run[0]);
    PathKeeps(run, k);
  }

  lemma StartOk(s: State)
    requires Start(s)
    ensures Inv(s)
  {
    TotalZero(s.pcs);
  }

  /**
   * In every interleaving: who holds the segment has it mapped, and nobody takes it away meanwhile;
   * at most one thread maps it, and only when it is not mapped; and the counter is the number of
   * outstanding increments, MAX_REF for one expiring thread at most, and one leaked increment at most.
   */
  lemma ProtocolSafe(run: seq<State>, k: nat)
    requires Run(run) && k < |run|
    ensures
      var s := run[k];
      && (forall i :: 0 <= i < |s.pcs| && s.pcs[i] == Holding ==> s.live && s.map_)
      && (forall i, j :: 0 <= i < |s.pcs| && 0 <= j < |s.pcs| && s.pcs[i] == Holding ==>
            s.pcs[j] != ExpUnmap && s.pcs[j] != ExpClear && s.pcs[j] != RefMap)
      && (forall i, j :: 0 <= i < |s.pcs| && 0 <= j < |s.pcs| && s.pcs[i] == RefMap && s.pcs[j] == RefMap ==> i == j)
      && (forall i :: 0 <= i < |s.pcs| && s.pcs[i] == RefMap ==> !s.live)
      && (forall i, j :: 0 <= i < |s.pcs| && 0 <= j < |s.pcs| && Big(s.pcs[i]) && Big(s.pcs[j]) ==> i == j)
      && s.nref == Total(s.pcs) + s.leaks && s.leaks <= 1
  {
    hide Step;
    RunKeeps(run, k);
  }

  /** The first read of the map pointer is enough: it is still set at the second. */
  lemma NeverNull(run: seq<State>, k: nat, i: nat)
    requires Run(run) && k + 1 < |run| && Step(run[k], run[k + 1], i) && run[k].pcs[i] == RefRead
    ensures run[k + 1].pcs[i] == Holding
  {
    RunKeeps(run, k);
  }

  // ---------------------------------------------------------------- a failed mapping

  /** A step in which sen_io_seg_ref cannot map the segment. */
  ghost predicate FailsToMap(s: State, t: State) {
    exists i: nat :: i < |s.pcs| && i < |t.pcs| && s.pcs[i] == RefMap && t.pcs[i] == Idle
  }

  lemma StepLeaks(s: State, t: State)
    requires SomeStep(s, t)
    ensures t.leaks == s.leaks + if FailsToMap(s, t) then 1 else 0
  {
    var i: nat :| Step(s, t, i);
    if s.pcs[i] == RefMap && t.pcs[i] == Idle {
      assert FailsToMap(s, t);
    }
    assert forall j :: 0 <= j < |s.pcs| && j != i ==> t.pcs[j] == s.pcs[j];
  }

  lemma {:induction false} RunLeaks(run: seq<State>, k: nat)
    requires Run(run) && k < |run|
    ensures run[k].leaks == 0 <==> forall j, n :: 0 <= j < n <= k && n == j + 1 ==> !FailsToMap(run[j], run[n])
  {
    hide Step, FailsToMap;
    if k > 0 {
      RunLeaks(run, k - 1);
      StepLeaks(run[k - 1], run[k]);
    }
  }

  /** With nobody in the protocol, the counter is 0 exactly if no mapping in sen_io_seg_ref has failed. */
  lemma QuietCounter(run: seq<State>, k: nat)
    requires Run(run) && k < |run| && Quiet(run[k])
    ensures run[k].nref == 0 <==> forall j, n :: 0 <= j < n <= k && n == j + 1 ==> !FailsToMap(run[j], run[n])
  {
    hide Step, FailsToMap;
    RunKeeps(run, k);
    RunLeaks(run, k);
    TotalZero(run[k].pcs);
  }

  /** A run that leaks: one thread, and a mapping that fails. */
  lemma LeakRun() returns (run: seq<State>)
    ensures Run(run) && Quiet(Last(run)) && Last(run).nref == 1
  {
    var s0 := State(0, false, false, [Idle], 0);
    var s1 := State(1, false, false, [RefAdded(0)], 0);
    var s2 := State(1, false, false, [RefMap], 0);
    var s3 := State(1, false, false, [Idle], 1);
    assert Step(s0, s1, 0) && Step(s1, s2, 0) && Step(s2, s3, 0);
    assert SomeStep(s0, s1) && SomeStep(s1, s2) && SomeStep(s2, s3);
    run := [s0, s1, s2, s3];
  }

  ghost predicate Held(s: State) {
    exists i: nat :: i < |s.pcs| && s.pcs[i] == Holding
  }

  /** After a failed mapping, no run of any threads comes to hold the segment again. */
  lemma StuckForever(run: seq<State>, k: nat, n: nat)
    requires Run(run) && k <= n < |run| && run[k].leaks > 0
    ensures !Held(run[n]) && !run[n].map_
  {
    hide Step;
    RunKeeps(run, n);
    LeaksStay(run, k, n);
  }

  lemma {:induction false} LeaksStay(run: seq<State>, k: nat, n: nat)
    requires Path(run) && k <= n < |run|
    ensures run[n].leaks >= run[k].leaks
    decreases n
  {
    hide Step, FailsToMap;
    if n > k {
      LeaksStay(run, k, n - 1);
      StepLeaks(run[n - 1], run[n]);
    }
  }

  // ---------------------------------------------------------------- when a segment comes back

  /** Thread `i` goes on; its mappings succeed. */
  function Next(s: State, i: nat): State
    requires i < |s.pcs|
  {
    match s.pcs[i]
    case Idle => s.(nref := Add(s.nref, 1), pcs := s.pcs[i := RefAdded(s.nref)])
    case RefAdded(n) =>
      s.(pcs := s.pcs[i :=
        if n >= MAX_REF then RefBack else if s.map_ then RefRead else if n != 0 then RefBack else RefMap])
    case RefMap => s.(map_ := true, live := true, pcs := s.pcs[i := RefRead])
    case RefRead => s.(pcs := s.pcs[i := if s.map_ then Holding else RefBack])
    case ExpAdded(n) =>
      if n != 0 then s.(pcs := s.pcs[i := ExpBack])
      else s.(nref := Add(s.nref, MAX_REF), pcs := s.pcs[i := ExpMax(s.nref)])
    case ExpMax(n) => s.(pcs := s.pcs[i := if n > 1 then ExpBackMax else ExpUnmap])
    case ExpUnmap => s.(live := false, pcs := s.pcs[i := ExpClear])
    case ExpClear => s.(map_ := false, pcs := s.pcs[i := ExpDone])
    case _ => s.(nref := Add(s.nref, -(Weight(s.pcs[i]) as int)), pcs := s.pcs[i := Idle])
  }

  lemma NextSteps(s: State, i: nat)
    requires i < |s.pcs|
    ensures Step(s, Next(s, i), i) && Next(s, i).leaks == s.leaks && SomeStep(s, Next(s, i))
  {
    assert Step(s, Next(s, i), i);
  }

  /** The steps that a thread is away from leaving the protocol, at most. */
  function Rank(pc: Pc): nat {
    match pc
    case Idle => 0
    case RefAdded(_) => 4
    case RefMap => 3
    case RefRead => 2
    case ExpAdded(_) => 5
    case ExpMax(_) => 4
    case ExpUnmap => 3
    case ExpClear => 2
    case _ => 1
  }

  function Ranks(pcs: seq<Pc>): nat {
    if |pcs| == 0 then 0 else Rank(pcs[0]) + Ranks(pcs[1..])
  }

  lemma {:induction false} RanksUpdate(pcs: seq<Pc>, i: nat, pc: Pc)
    requires i < |pcs|
    ensures Ranks(pcs[i := pc]) == Ranks(pcs) - Rank(pcs[i]) + Rank(pc)
  {
    if i > 0 {
      RanksUpdate(pcs[1..], i - 1, pc);
      assert pcs[i := pc][1..] == pcs[1..][i - 1 := pc];
    } else {
      assert pcs[0 := pc][1..] == pcs[1..];
    }
  }

  lemma PathCons(s: State, run: seq<State>)
    requires Path(run) && SomeStep(s, run[0])
    ensures Path([s] + run) && Last([s] + run) == Last(run)
  {
    hide SomeStep;
  }

  /** Every thread can leave the protocol. */
  lemma {:induction false} Drains(s: State) returns (run: seq<State>)
    ensures Path(run) && run[0] == s && Last(run).leaks == s.leaks && Quiet(Last(run))
    decreases Ranks(s.pcs)
  {
    if Quiet(s) {
      run := [s];
    } else {
      var i: nat :| i < |s.pcs| && s.pcs[i] != Idle;
      NextSteps(s, i);
      RanksUpdate(s.pcs, i, Next(s, i).pcs[i]);
      var rest := Drains(Next(s, i));
      PathCons(s, rest);
      run := [s] + rest;
    }
  }

  /** With nobody in the protocol and nothing leaked, a thread gets the segment. */
  lemma QuietHolds(s: State) returns (run: seq<State>)
    requires Inv(s) && Quiet(s) && |s.pcs| > 0 && s.leaks == 0
    ensures Path(run) && run[0] == s && Held(Last(run))
  {
    hide Step;
    TotalZero(s.pcs);
    var s1 := Next(s, 0);
    var s2 := Next(s1, 0);
    var s3 := Next(s2, 0);
    NextSteps(s, 0);
    NextSteps(s1, 0);
    NextSteps(s2, 0);
    if s.map_ {
      run := [s, s1, s2, s3];
    } else {
      NextSteps(s3, 0);
      run := [s, s1, s2, s3, Next(s3, 0)];
    }
    assert Last(run).pcs[0] == Holding;
  }

  lemma PathJoin(a: seq<State>, b: seq<State>)
    requires Path(a) && Path(b) && Last(a) == b[0]
    ensures Path(a + b[1..]) && Last(a + b[1..]) == Last(b) && (a + b[1..])[0] == a[0]
  {
    hide SomeStep;
    var c := a + b[1..];
    assert forall j :: |a| <= j < |c| ==> c[j] == b[j - |a| + 1];
  }

  /** Some run from here comes to hold the segment. */
  ghost predicate CanHold(s: State) {
    exists more: seq<State> :: Path(more) && more[0] == s && Held(Last(more))
  }

  /** From any state of any run, the segment can be held again exactly if no mapping in sen_io_seg_ref has failed. */
  lemma ComesBack(run: seq<State>, k: nat)
    requires Run(run) && k < |run| && |run[0].pcs| > 0
    ensures CanHold(run[k]) <==> forall j, n :: 0 <= j < n <= k && n == j + 1 ==> !FailsToMap(run[j], run[n])
  {
    hide Step, FailsToMap;
    RunKeeps(run, k);
    RunLeaks(run, k);
    if run[k].leaks == 0 {
      HoldsAgain(run[k]);
    } else if more :| Path(more) && more[0] == run[k] && Held(Last(more)) {
      PathKeeps(more, |more| - 1);
      LeaksStay(more, 0, |more| - 1);
    }
  }

  lemma HoldsAgain(s: State)
    requires Inv(s) && |s.pcs| > 0 && s.leaks == 0
    ensures CanHold(s)
  {
    hide Step, Inv;
    var run := Drains(s);
    PathKeeps(run, |run| - 1);
    var more := QuietHolds(Last(run));
    PathJoin(run, more);
  }

  // ---------------------------------------------------------------- whole calls

  /** Only thread `i` goes on. */
  ghost predicate Alone(run: seq<State>, i: nat) {
    forall j, k :: 0 <= j < |run| && 0 <= k < |run| && k == j + 1 ==> Step(run[j], run[k], i)
  }

  /** Another thread is in the protocol, or an increment has been leaked. */
  ghost predicate Disturbed(s: State, i: nat) {
    s.leaks > 0 || exists j :: 0 <= j < |s.pcs| && j != i && s.pcs[j] != Idle
  }

  /** Another thread has added MAX_REF. */
  ghost predicate Expiring(s: State, i: nat) {
    exists j :: 0 <= j < |s.pcs| && j != i
      && (s.pcs[j].ExpMax? || s.pcs[j].ExpBackMax? || s.pcs[j].ExpUnmap? || s.pcs[j].ExpClear? || s.pcs[j].ExpDone?)
  }

  /** What the counter tells thread `i`. */
  lemma DisturbedIs(s: State, i: nat)
    requires Inv(s) && i < |s.pcs| && Weight(s.pcs[i]) <= 1
    ensures s.nref == Weight(s.pcs[i]) <==> !Disturbed(s, i)
    ensures !Disturbed(s, i) && s.pcs[i] == Idle ==> s.live == s.map_ && s.leaks == 0
  {
    hide Exclusive, Stuck;
    TotalAlone(s.pcs, i);
    if !Disturbed(s, i) {
      TotalUpdate(s.pcs, i, Idle);
      TotalZero(s.pcs[i := Idle]);
    }
  }

  lemma NoneBig(pcs: seq<Pc>, i: nat, j: nat)
    requires Exclusive(pcs) && i < |pcs| && j < |pcs| && Big(pcs[j])
    ensures
      var few := pcs[j := Holding][i := Holding];
      forall k :: 0 <= k < |few| ==> !Big(few[k])
  {}

  lemma ExpiringIs(s: State, i: nat)
    requires Inv(s) && i < |s.pcs| && s.pcs[i] == Idle
    ensures s.nref >= MAX_REF <==> Expiring(s, i)
    ensures s.nref + 1 < TWO32
  {
    hide Exclusive;
    NoWrap(s.pcs);
    if !Expiring(s, i) {
      TotalUpdate(s.pcs, i, Holding);
      TotalSmall(s.pcs[i := Holding]);
    } else {
      var j :| 0 <= j < |s.pcs| && j != i && Big(s.pcs[j]);
      var few := s.pcs[j := Holding][i := Holding];
      TotalUpdate(s.pcs, j, Holding);
      TotalUpdate(s.pcs[j := Holding], i, Holding);
      NoneBig(s.pcs, i, j);
      TotalSmall(few);
    }
  }

  /** A thread in the protocol has one way to go on, unless it is going to map the segment. */
  lemma Determined(s: State, t: State, i: nat)
    requires Step(s, t, i) && s.pcs[i] != Idle && s.pcs[i] != RefMap
    ensures t == Next(s, i)
  {}

  /** The steps of a call that backs off, and the step back. */
  lemma Undone(s: State, s1: State, s2: State, s3: State, i: nat)
    requires Inv(s) && i < |s.pcs| && s.pcs[i] == Idle && s.nref + 1 < TWO32
    requires s1.nref == s.nref + 1 && |s1.pcs| == |s.pcs| == |s2.pcs|
    requires s1 == s.(nref := s1.nref, pcs := s.pcs[i := s1.pcs[i]])
    requires s2 == s1.(pcs := s1.pcs[i := s2.pcs[i]]) && (s2.pcs[i] == RefBack || s2.pcs[i] == ExpBack)
    requires Step(s2, s3, i)
    ensures s3 == s
  {
    Determined(s2, s3, i);
    assert s3.pcs == s.pcs;
  }

  /**
   * A call of ref that no step of another thread comes between, whatever the others hold: it comes to hold
   * a mapped segment unless another thread has added MAX_REF; it maps the segment if it is alone; and
   * otherwise it backs off and leaves everything as it was.
   */
  lemma RefAlone(run: seq<State>, more: seq<State>, i: nat)
    requires Run(run) && |more| == 4 && more[0] == Last(run) && Alone(more, i)
    requires i < |more[0].pcs| && more[0].pcs[i] == Idle && more[1].pcs[i].RefAdded?
    ensures
      var s := more[0];
      if Expiring(s, i) || (!s.map_ && Disturbed(s, i)) then more[3] == s
      else if s.map_ then more[3] == s.(nref := s.nref + 1, pcs := s.pcs[i := Holding])
      else
        || more[3] == State(1, true, true, s.pcs[i := RefRead], 0)
        || more[3] == State(1, false, false, s.pcs[i := RefBack], 0)
        || more[3] == State(1, false, false, s.pcs, 1)
  {
    hide Step, Inv, Disturbed, Expiring;
    RunKeeps(run, |run| - 1);
    var s := more[0];
    DisturbedIs(s, i);
    ExpiringIs(s, i);
    RefStarts(s, more[1], i);
    Determined(more[1], more[2], i);
    if more[2].pcs[i] == RefBack {
      Undone(s, more[1], more[2], more[3], i);
    } else if more[2].pcs[i] == RefRead {
      Determined(more[2], more[3], i);
    } else {
      MapsOrNot(more[2], more[3], i);
      assert more[2].pcs[i := Idle] == s.pcs;
    }
  }

  lemma RefStarts(s: State, t: State, i: nat)
    requires Step(s, t, i) && s.pcs[i] == Idle && s.nref + 1 < TWO32
    ensures
      if t.pcs[i].RefAdded? then t == s.(nref := s.nref + 1, pcs := s.pcs[i := RefAdded(s.nref)])
      else t == s.(nref := s.nref + 1, pcs := s.pcs[i := ExpAdded(s.nref)])
  {}

  /** The mapping succeeds, or fails in the macro, or in the function. */
  lemma MapsOrNot(s: State, t: State, i: nat)
    requires Step(s, t, i) && s.pcs[i] == RefMap
    ensures
      || t == s.(map_ := true, live := true, pcs := s.pcs[i := RefRead])
      || t == s.(pcs := s.pcs[i := RefBack])
      || t == s.(pcs := s.pcs[i := Idle], leaks := s.leaks + 1)
  {}

  /**
   * A call of expire that no step of another thread comes between: if the others are idle and nothing has been
   * leaked, the segment is not mapped afterwards and the counter is 0; otherwise nothing has changed.
   */
  lemma ExpireAlone(run: seq<State>, more: seq<State>, i: nat)
    requires Run(run) && |more| == 7 && more[0] == Last(run) && Alone(more, i)
    requires i < |more[0].pcs| && more[0].pcs[i] == Idle && more[1].pcs[i].ExpAdded?
    ensures
      var s := more[0];
      if Disturbed(s, i) then more[3] == s
      else more[6] == State(0, false, false, s.pcs, 0)
  {
    hide Step, Inv, Disturbed, Expiring;
    RunKeeps(run, |run| - 1);
    var s := more[0];
    DisturbedIs(s, i);
    ExpiringIs(s, i);
    RefStarts(s, more[1], i);
    Determined(more[1], more[2], i);
    if s.nref > 0 {
      Undone(s, more[1], more[2], more[3], i);
    } else {
      Determined(more[2], more[3], i);
      Determined(more[3], more[4], i);
      Determined(more[4], more[5], i);
      Determined(more[5], more[6], i);
      assert more[6].pcs == s.pcs;
    }
  }

  // ---------------------------------------------------------------- when a segment goes away

  /** With nobody in the protocol and nothing leaked, an expire takes the mapping away. */
  lemma QuietExpires(s: State) returns (run: seq<State>)
    requires Inv(s) && Quiet(s) && |s.pcs| > 0 && s.leaks == 0
    ensures Path(run) && run[0] == s && Alone(run, 0) && Quiet(Last(run)) && !Last(run).map_ && !Last(run).live
  {
    hide Step;
    TotalZero(s.pcs);
    var s1 := s.(nref := 1, pcs := s.pcs[0 := ExpAdded(0)]);
    ExpireStarts(s);
    var s2 := Next(s1, 0);
    var s3 := Next(s2, 0);
    var s4 := Next(s3, 0);
    var s5 := Next(s4, 0);
    NextSteps(s1, 0);
    NextSteps(s2, 0);
    NextSteps(s3, 0);
    NextSteps(s4, 0);
    NextSteps(s5, 0);
    run := [s, s1, s2, s3, s4, s5, Next(s5, 0)];
  }

  lemma ExpireStarts(s: State)
    requires |s.pcs| > 0 && s.pcs[0] == Idle && s.nref == 0
    ensures
      var t := s.(nref := 1, pcs := s.pcs[0 := ExpAdded(0)]);
      Step(s, t, 0) && SomeStep(s, t)
  {
    assert Step(s, s.(nref := 1, pcs := s.pcs[0 := ExpAdded(0)]), 0);
  }

  /** From any state of any run, some run comes to an end with nobody in the protocol and the segment not mapped. */
  lemma GoesAway(run: seq<State>, k: nat)
    requires Run(run) && k < |run| && |run[0].pcs| > 0
    ensures exists more: seq<State> ::
        Path(more) && more[0] == run[k] && Quiet(Last(more)) && !Last(more).map_ && !Last(more).live
  {
    hide Step;
    RunKeeps(run, k);
    var more := Drains(run[k]);
    PathKeeps(more, |more| - 1);
    if Last(more).map_ {
      var rest := QuietExpires(Last(more));
      PathJoin(more, rest);
      more := more + rest[1..];
    }
    assert Path(more) && more[0] == run[k];
  }

  /** Expire has to take back what it added. */
  predicate BackingOff(pc: Pc) {
    pc == ExpBack || pc == ExpBackMax || (pc.ExpAdded? && pc.nref != 0) || (pc.ExpMax? && pc.nref > 1)
  }

  /** In the call that it is in at `k`, thread `i` has seen another thread in the protocol, or a leak. */
  ghost predicate WasDisturbed(run: seq<State>, k: nat, i: nat)
    requires k < |run|
  {
    exists j: nat ::
      j < k && Disturbed(run[j], i) && forall m :: j < m <= k && i < |run[m].pcs| ==> run[m].pcs[i] != Idle
  }

  /** A thread comes to back off by what it reads from the counter. */
  lemma StartsBack(s: State, t: State, n: nat, i: nat)
    requires Inv(s) && Step(s, t, n) && i < |t.pcs| && BackingOff(t.pcs[i])
    ensures i < |s.pcs| && (BackingOff(s.pcs[i]) || (n == i && Disturbed(s, i)))
  {
    SameThreads(s, t, n);
    if n == i && Weight(s.pcs[i]) <= 1 {
      DisturbedIs(s, i);
    }
  }

  /** An expire backs off only if, during the call, another thread was in the protocol or there was a leak. */
  lemma {:induction false} BacksOff(run: seq<State>, k: nat, i: nat)
    requires Run(run) && k < |run| && i < |run[k].pcs| && BackingOff(run[k].pcs[i])
    ensures WasDisturbed(run, k, i)
  {
    hide Step, Inv, Disturbed;
    assert k > 0;
    RunKeeps(run, k - 1);
    assert SomeStep(run[k - 1], run[k]);
    var n: nat :| Step(run[k - 1], run[k], n);
    StartsBack(run[k - 1], run[k], n, i);
    if BackingOff(run[k - 1].pcs[i]) {
      BacksOff(run, k - 1, i);
    }
  }
}
