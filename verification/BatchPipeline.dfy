/**
 The queue pipeline of the list-major batch search (contrib/big_batch_search.py): a pool that prepares
 inverted lists, a pool that computes, and the main thread that merges results and writes checkpoints,
 over two bounded queues. Threads take steps in any order and the process may crash at any point and
 start again from its last checkpoint.
 */
module BatchPipeline {

  import opened Options

  /** The lists first..last, the sizes of the pools, and whether there is a checkpoint file. */
  datatype Config = Config(first: nat, last: nat, prefetchers: nat, computers: nat, checkpoints: bool)

  /** At least one thread in each pool. */
  predicate Staffed(c: Config) {
    c.prefetchers > 0 && c.computers > 0
  }

  /** Capacity of both queues. */
  const CAPACITY := 2

  /** What a queue place or a thread holds: a queue place a list or the sentinel, a prefetch thread nothing
      or a list, a compute task nothing (it waits for input), a list, or the sentinel that it has to put
      back, or it has stopped. */
  datatype Slot = Free | Bucket(l: nat) | Sentinel | Stopped

  /** The main thread between its steps. */
  datatype Main = Reading | Merging(l: nat) | Completing(l: nat) | Deciding | Replacing | Finished

  /** What a checkpoint holds: the completed set and the result heap, given by the lists merged into it. */
  datatype Dump = Dump(completed: set<nat>, merged: seq<nat>)

  datatype State = State(
    recovered: set<nat>,
    completed: set<nat>,
    merged: seq<nat>,
    next: nat,
    pending: seq<nat>,
    prefetchers: seq<Slot>,
    prepareDone: bool,
    prepared: seq<Slot>,
    computers: seq<Slot>,
    computeDone: bool,
    results: seq<Slot>,
    main: Main,
    temp: Option<Dump>,
    file: Option<Dump>)

  /** A process starts from the checkpoint file, if there is one. */
  function Start(c: Config, file: Option<Dump>): State {
    var dump := if file.Some? then file.value else Dump({}, []);
    State(dump.completed, dump.completed, dump.merged, c.first, [], seq(c.prefetchers, _ => Free), false, [],
      seq(c.computers, _ => Free), false, [], Reading, None, file)
  }

  datatype Step =
    | Submit                // the prepare manager tests and submits the next list
    | Fetch(w: nat)         // a prefetch thread takes a submitted list
    | Prepared(w: nat)      // it puts the prepared list into the first queue
    | PrepareEnds           // all lists prepared, the manager puts the sentinel
    | Take(w: nat)          // a compute task gets from the first queue
    | Relay(w: nat)         // it puts the sentinel back and stops
    | Give(w: nat)          // it puts its result into the second queue
    | ComputeEnds           // all compute tasks stopped, their manager puts the sentinel
    | Read                  // the main thread gets from the second queue
    | Merge                 // it merges the result into the heap
    | Complete              // it adds the list to the completed set
    | Skip                  // too early for a checkpoint
    | Write                 // it writes the temporary checkpoint file
    | Replace               // and moves it to its place

  predicate Holds(slots: seq<Slot>, w: nat) {
    w < |slots| && slots[w].Bucket?
  }

  predicate Enabled(c: Config, s: State, step: Step) {
    match step
    case Submit => !s.prepareDone && s.next < c.last
    case Fetch(w) => w < |s.prefetchers| && s.prefetchers[w] == Free && s.pending != []
    case Prepared(w) => Holds(s.prefetchers, w) && |s.prepared| < CAPACITY
    case PrepareEnds =>
      && !s.prepareDone && s.next >= c.last && s.pending == []
      && (forall w :: 0 <= w < |s.prefetchers| ==> s.prefetchers[w] == Free)
      && |s.prepared| < CAPACITY
    case Take(w) => w < |s.computers| && s.computers[w] == Free && s.prepared != []
    case Relay(w) => w < |s.computers| && s.computers[w] == Sentinel && |s.prepared| < CAPACITY
    case Give(w) => Holds(s.computers, w) && |s.results| < CAPACITY
    case ComputeEnds =>
      && !s.computeDone && (forall w :: 0 <= w < |s.computers| ==> s.computers[w] == Stopped)
      && |s.results| < CAPACITY
    case Read => s.main == Reading && s.results != []
    case Merge => s.main.Merging?
    case Complete => s.main.Completing?
    case Skip => s.main == Deciding
    case Write => s.main == Deciding
    case Replace => s.main == Replacing && s.temp.Some?
  }

  function Apply(c: Config, s: State, step: Step): State
    requires Enabled(c, s, step)
  {
    match step
    case Submit =>
      s.(next := s.next + 1, pending := if s.next in s.completed then s.pending else s.pending + [s.next])
    case Fetch(w) => s.(pending := s.pending[1..], prefetchers := s.prefetchers[w := Bucket(s.pending[0])])
    case Prepared(w) => s.(prepared := s.prepared + [s.prefetchers[w]], prefetchers := s.prefetchers[w := Free])
    case PrepareEnds => s.(prepareDone := true, prepared := s.prepared + [Sentinel])
    case Take(w) => s.(prepared := s.prepared[1..], computers := s.computers[w := s.prepared[0]])
    case Relay(w) => s.(prepared := s.prepared + [Sentinel], computers := s.computers[w := Stopped])
    case Give(w) => s.(results := s.results + [s.computers[w]], computers := s.computers[w := Free])
    case ComputeEnds => s.(computeDone := true, results := s.results + [Sentinel])
    case Read =>
      s.(results := s.results[1..], main := if s.results[0].Bucket? then Merging(s.results[0].l) else Finished)
    case Merge => s.(merged := s.merged + [s.main.l], main := Completing(s.main.l))
    case Complete => s.(completed := s.completed + {s.main.l}, main := if c.checkpoints then Deciding else Reading)
    case Skip => s.(main := Reading)
    case Write => s.(temp := Some(Dump(s.completed, s.merged)), main := Replacing)
    case Replace => s.(file := s.temp, temp := None, main := Reading)
  }

  // Where every list is.

  function One(slot: Slot): multiset<nat> {
    if slot.Bucket? then multiset{slot.l} else multiset{}
  }

  function Held(slots: seq<Slot>): multiset<nat> {
    if slots == [] then multiset{} else Held(slots[..|slots| - 1]) + One(slots[|slots| - 1])
  }

  /** How many copies of list l the pool, the threads and the queues hold. */
  function Copies(s: State, l: nat): nat {
    multiset(s.pending)[l] + Held(s.prefetchers)[l] + Held(s.prepared)[l] + Held(s.computers)[l] +
    Held(s.results)[l] + (if s.main == Merging(l) then 1 else 0)
  }

  function Span(lo: nat, hi: nat): (lists: set<nat>)
    ensures forall l :: l in lists <==> lo <= l < hi
  {
    if lo >= hi then {} else Span(lo, hi - 1) + {hi - 1}
  }

  lemma HeldSnoc(slots: seq<Slot>, x: Slot)
    ensures Held(slots + [x]) == Held(slots) + One(x)
  {
    assert (slots + [x])[..|slots|] == slots;
  }

  lemma {:induction false} HeldHead(slots: seq<Slot>)
    requires slots != []
    ensures Held(slots) == One(slots[0]) + Held(slots[1..])
  {
    hide One;
    var n := |slots| - 1;
    if n == 0 {
      assert slots[..0] == [] == slots[1..];
    } else {
      HeldHead(slots[..n]);
      assert slots[..n][1..] == slots[1..][..n - 1];
      assert Held(slots) == (One(slots[0]) + Held(slots[1..][..n - 1])) + One(slots[n]);
      assert Held(slots[1..]) == Held(slots[1..][..n - 1]) + One(slots[n]);
      hide Held;
    }
  }

  lemma {:induction false} HeldUpdate(slots: seq<Slot>, w: nat, x: Slot)
    requires w < |slots|
    ensures Held(slots[w := x]) + One(slots[w]) == Held(slots) + One(x)
  {
    hide *;
    var n := |slots| - 1;
    var front, last := slots[..n], slots[n];
    assert slots == front + [last];
    HeldSnoc(front, last);
    if w == n {
      assert slots[w := x] == front + [x];
      HeldSnoc(front, x);
      AddToBoth(Held(front), One(x), Held(front), One(x), One(last));
    } else {
      assert slots[w := x] == front[w := x] + [last];
      HeldUpdate(front, w, x);
      HeldSnoc(front[w := x], last);
      AddToBoth(Held(front[w := x]), One(slots[w]), Held(front), One(x), One(last));
    }
  }

  lemma AddToBoth(a: multiset<nat>, p: multiset<nat>, b: multiset<nat>, q: multiset<nat>, r: multiset<nat>)
    requires a + p == b + q
    ensures (a + r) + p == (b + r) + q
  {
    assert (a + r) + p == (a + p) + r;
  }

  /** An empty place takes something. */
  lemma HeldFill(slots: seq<Slot>, w: nat, x: Slot)
    requires w < |slots| && !slots[w].Bucket?
    ensures Held(slots[w := x]) == Held(slots) + One(x)
    ensures |Held(slots[w := x])| == |Held(slots)| + |One(x)|
  {
    HeldUpdate(slots, w, x);
    assert One(slots[w]) == multiset{};
    hide Held, One;
    assert Held(slots[w := x]) + multiset{} == Held(slots[w := x]);
  }

  /** A place gives what it holds. */
  lemma HeldEmpty(slots: seq<Slot>, w: nat, x: Slot)
    requires w < |slots| && !x.Bucket?
    ensures Held(slots) == Held(slots[w := x]) + One(slots[w])
    ensures |Held(slots)| == |Held(slots[w := x])| + |One(slots[w])|
  {
    HeldUpdate(slots, w, x);
    assert One(x) == multiset{};
    hide Held, One;
    assert Held(slots) + multiset{} == Held(slots);
  }

  lemma {:induction false} NothingHeld(slots: seq<Slot>)
    requires forall i :: 0 <= i < |slots| ==> !slots[i].Bucket?
    ensures Held(slots) == multiset{}
  {
    if slots != [] {
      NothingHeld(slots[..|slots| - 1]);
    }
  }

  /** Recovered from the checkpoint, or passed by the manager. */
  predicate Claimed(c: Config, s: State, l: nat) {
    l in s.recovered || c.first <= l < s.next
  }

  ghost predicate OnceIfClaimed(c: Config, s: State, l: nat) {
    multiset(s.merged)[l] + Copies(s, l) == if Claimed(c, s, l) then 1 else 0
  }

  /** Every list claimed so far is merged or in flight, once; the others are not. */
  ghost predicate Accounted(c: Config, s: State) {
    forall l :: OnceIfClaimed(c, s, l)
  }

  /** The completed set is the set of merged lists, but for the one the main thread is about to add. */
  ghost predicate Recorded(s: State) {
    multiset(s.merged) == multiset(s.completed) + (if s.main.Completing? then multiset{s.main.l} else multiset{})
  }

  ghost predicate GoodDump(c: Config, d: Dump) {
    multiset(d.merged) == multiset(d.completed) && d.completed <= Span(c.first, c.last)
  }

  ghost predicate Saved(c: Config, s: State) {
    && (s.file.Some? ==> GoodDump(c, s.file.value))
    && (s.main == Replacing <==> s.temp.Some?)
    && (s.temp.Some? ==> GoodDump(c, s.temp.value))
    && s.recovered <= s.completed && s.recovered <= Span(c.first, c.last)
    && c.first <= s.next && (s.next <= c.last || s.next == c.first)
  }

  ghost predicate AllBuckets(q: seq<Slot>) {
    forall i :: 0 <= i < |q| ==> q[i].Bucket?
  }

  /** Lists and then the sentinel: nothing is behind it. */
  ghost predicate EndsWithSentinel(q: seq<Slot>) {
    q != [] && q[|q| - 1] == Sentinel && AllBuckets(q[..|q| - 1])
  }

  ghost predicate Working(slots: seq<Slot>) {
    forall w :: 0 <= w < |slots| ==> slots[w] == Free || slots[w].Bucket?
  }

  /** The only sentinel of the first queue is at its end or in the hands of one compute task. */
  ghost predicate InputSide(c: Config, s: State) {
    && |s.prefetchers| == c.prefetchers && |s.computers| == c.computers && |s.prepared| <= CAPACITY
    && Working(s.prefetchers)
    && (!s.prepareDone ==> AllBuckets(s.prepared) && Working(s.computers))
    && (s.prepareDone ==>
      && s.next >= c.last && s.pending == []
      && (forall w :: 0 <= w < |s.prefetchers| ==> s.prefetchers[w] == Free)
      && (s.prepared == [] || EndsWithSentinel(s.prepared))
      && (s.prepared == [] ==> exists w :: 0 <= w < |s.computers| && s.computers[w] == Sentinel)
      && (forall w :: 0 <= w < |s.computers| && s.computers[w] == Sentinel ==>
        s.prepared == [] && forall v :: 0 <= v < |s.computers| && s.computers[v] == Sentinel ==> v == w)
      && (forall w :: 0 <= w < |s.computers| && s.computers[w] == Stopped ==> |s.prepared| <= 1))
  }

  /** The sentinel of the second queue comes when all compute tasks have stopped, and stays behind every
      result until the main thread reads it. */
  ghost predicate OutputSide(s: State) {
    && |s.results| <= CAPACITY
    && (!s.computeDone ==> AllBuckets(s.results) && s.main != Finished)
    && (s.computeDone ==>
      && (forall w :: 0 <= w < |s.computers| ==> s.computers[w] == Stopped)
      && (if s.main == Finished then s.results == [] else EndsWithSentinel(s.results)))
  }

  ghost predicate Invariant(c: Config, s: State) {
    Accounted(c, s) && Recorded(s) && Saved(c, s) && InputSide(c, s) && OutputSide(s)
  }

  lemma {:induction false} AllFree(n: nat)
    ensures Held(seq(n, _ => Free)) == multiset{}
  {
    NothingHeld(seq(n, _ => Free));
  }

  lemma StartIsGood(c: Config, file: Option<Dump>)
    requires file.Some? ==> GoodDump(c, file.value)
    ensures Invariant(c, Start(c, file))
  {
    var s := Start(c, file);
    StartAccounted(c, file);
    assert Recorded(s) && Saved(c, s) && InputSide(c, s) && OutputSide(s);
    hide *;
    MakeInvariant(c, s);
  }

  lemma MakeInvariant(c: Config, s: State)
    requires Accounted(c, s) && Recorded(s) && Saved(c, s) && InputSide(c, s) && OutputSide(s)
    ensures Invariant(c, s)
  {
    hide Accounted, Recorded, Saved, InputSide, OutputSide;
  }

  lemma NoCopies(c: Config, file: Option<Dump>, l: nat)
    ensures Copies(Start(c, file), l) == 0
  {
    AllFree(c.prefetchers);
    AllFree(c.computers);
    assert Held([]) == multiset{};
    hide Held;
  }

  lemma StartAccounted(c: Config, file: Option<Dump>)
    requires file.Some? ==> GoodDump(c, file.value)
    ensures Accounted(c, Start(c, file))
  {
    var s := Start(c, file);
    assert multiset(s.merged) == multiset(s.completed) && s.recovered == s.completed && s.next == c.first;
    hide GoodDump, Start, Copies;
    forall l
      ensures OnceIfClaimed(c, s, l)
    {
      NoCopies(c, file, l);
      assert multiset(s.completed)[l] == if l in s.completed then 1 else 0;
    }
  }

  lemma InputSideStays(c: Config, s: State, step: Step)
    requires InputSide(c, s) && Enabled(c, s, step)
    ensures InputSide(c, Apply(c, s, step))
  {
    hide *;
    match step {
      case Submit => PrepareKeepsInput(c, s, step);
      case Fetch(w) => FetchKeepsInput(c, s, w);
      case Prepared(w) => PreparedKeepsInput(c, s, w);
      case PrepareEnds => PrepareKeepsInput(c, s, step);
      case Take(w) => TakeKeepsInput(c, s, w);
      case Relay(w) => RelayKeepsInput(c, s, w);
      case Give(w) => GiveKeepsInput(c, s, w);
      case _ => OthersKeepInput(c, s, step);
    }
  }

  lemma OthersKeepInput(c: Config, s: State, step: Step)
    requires InputSide(c, s) && Enabled(c, s, step) && !step.Submit? && !step.Fetch? && !step.Prepared?
    requires !step.PrepareEnds? && !step.Take? && !step.Relay? && !step.Give?
    ensures InputSide(c, Apply(c, s, step))
  {
    hide AllBuckets, EndsWithSentinel, Working;
  }

  lemma PrepareKeepsInput(c: Config, s: State, step: Step)
    requires InputSide(c, s) && Enabled(c, s, step) && (step.Submit? || step.PrepareEnds?)
    ensures InputSide(c, Apply(c, s, step))
  {
    if step.PrepareEnds? {
      var t := Apply(c, s, step);
      assert t.prepared[..|t.prepared| - 1] == s.prepared;
      assert Working(s.computers);
    }
  }

  lemma FetchKeepsInput(c: Config, s: State, w: nat)
    requires InputSide(c, s) && Enabled(c, s, Fetch(w))
    ensures InputSide(c, Apply(c, s, Fetch(w)))
  {
    hide AllBuckets, EndsWithSentinel;
    assert !s.prepareDone;
  }

  lemma PreparedKeepsInput(c: Config, s: State, w: nat)
    requires InputSide(c, s) && Enabled(c, s, Prepared(w))
    ensures InputSide(c, Apply(c, s, Prepared(w)))
  {
    hide EndsWithSentinel;
    assert !s.prepareDone;
  }

  lemma TakeKeepsInput(c: Config, s: State, w: nat)
    requires InputSide(c, s) && Enabled(c, s, Take(w))
    ensures InputSide(c, Apply(c, s, Take(w)))
  {
    var t := Apply(c, s, Take(w));
    if s.prepareDone {
      if s.prepared[0] == Sentinel {
        assert |s.prepared| == 1;
        assert t.computers[w] == Sentinel;
      } else {
        assert s.prepared[|s.prepared| - 1] == Sentinel;
        assert |s.prepared| == 2 && t.prepared == [Sentinel];
      }
    }
  }

  lemma JustSentinel()
    ensures EndsWithSentinel([Sentinel])
  {
  }

  lemma RelayKeepsInput(c: Config, s: State, w: nat)
    requires InputSide(c, s) && Enabled(c, s, Relay(w))
    ensures InputSide(c, Apply(c, s, Relay(w)))
  {
    var t := Apply(c, s, Relay(w));
    assert s.prepareDone by {
      assert !s.prepareDone ==> Working(s.computers);
    }
    hide Working, AllBuckets, EndsWithSentinel;
    JustSentinel();
    assert s.prepared == [];
    assert t.prepared == [Sentinel];
  }

  lemma GiveKeepsInput(c: Config, s: State, w: nat)
    requires InputSide(c, s) && Enabled(c, s, Give(w))
    ensures InputSide(c, Apply(c, s, Give(w)))
  {
    var t := Apply(c, s, Give(w));
    if s.prepareDone && s.prepared == [] {
      var v: nat :| v < |s.computers| && s.computers[v] == Sentinel;
      assert t.computers[v] == Sentinel;
    }
  }

  lemma OutputSideStays(c: Config, s: State, step: Step)
    requires InputSide(c, s) && OutputSide(s) && Enabled(c, s, step)
    ensures OutputSide(Apply(c, s, step))
  {
    hide *;
    if step.Read? {
      ReadKeepsOutput(c, s);
    } else if step.ComputeEnds? || step.Give? {
      ResultKeepsOutput(c, s, step);
    } else {
      OthersKeepOutput(c, s, step);
    }
  }

  lemma ReadKeepsOutput(c: Config, s: State)
    requires OutputSide(s) && Enabled(c, s, Read)
    ensures OutputSide(Apply(c, s, Read))
  {
    var t := Apply(c, s, Read);
    if s.computeDone {
      if |s.results| > 1 {
        assert s.results[0] == s.results[..|s.results| - 1][0];
        assert t.results[..|t.results| - 1] == s.results[..|s.results| - 1][1..];
      }
    }
  }

  lemma ResultKeepsOutput(c: Config, s: State, step: Step)
    requires OutputSide(s) && Enabled(c, s, step) && (step.ComputeEnds? || step.Give?)
    ensures OutputSide(Apply(c, s, step))
  {
    var t := Apply(c, s, step);
    assert !s.computeDone;
    assert t.results[..|t.results| - 1] == s.results;
  }

  lemma OthersKeepOutput(c: Config, s: State, step: Step)
    requires InputSide(c, s) && OutputSide(s) && Enabled(c, s, step)
    requires !step.Read? && !step.ComputeEnds? && !step.Give?
    ensures OutputSide(Apply(c, s, step))
  {
    hide InputSide, EndsWithSentinel, AllBuckets;
    assert s.computeDone ==> !step.Take? && !step.Relay?;
  }

  lemma SetOfUnion(a: set<nat>, l: nat)
    ensures l !in a ==> multiset(a + {l}) == multiset(a) + multiset{l}
    ensures l in a ==> a + {l} == a
  {
  }

  /** No list is ever merged twice, and only lists of the range are merged. */
  lemma MergedAtMostOnce(c: Config, s: State)
    requires Accounted(c, s) && Recorded(s) && Saved(c, s)
    ensures forall l :: multiset(s.merged)[l] <= 1
    ensures forall l :: multiset(s.merged)[l] > 0 ==> c.first <= l < c.last
    ensures s.completed <= Span(c.first, c.last)
    ensures s.main.Completing? ==> s.main.l !in s.completed
  {
    hide Copies;
    forall l: nat
      ensures multiset(s.merged)[l] <= if Claimed(c, s, l) then 1 else 0
    {
      assert OnceIfClaimed(c, s, l);
    }
    forall l | l in s.completed
      ensures l in Span(c.first, c.last)
    {
      assert 1 == multiset(s.completed)[l] <= multiset(s.merged)[l];
    }
    assert s.main.Completing? ==> multiset(s.merged)[s.main.l] == multiset(s.completed)[s.main.l] + 1;
  }

  lemma SavedStays(c: Config, s: State, step: Step)
    requires Accounted(c, s) && Recorded(s) && Saved(c, s) && Enabled(c, s, step)
    ensures Saved(c, Apply(c, s, step))
  {
    if step == Write {
      MergedAtMostOnce(c, s);
    }
    hide Accounted, Span;
  }

  lemma RecordedStays(c: Config, s: State, step: Step)
    requires Accounted(c, s) && Recorded(s) && Saved(c, s) && Enabled(c, s, step)
    ensures Recorded(Apply(c, s, step))
  {
    hide Accounted, Saved;
    if step == Complete {
      MergedAtMostOnce(c, s);
      SetOfUnion(s.completed, s.main.l);
      hide Span;
    }
  }

  /** The manager's test sees what was recovered: lists completed since then are behind it. */
  lemma TestSeesRecovered(c: Config, s: State)
    requires Accounted(c, s) && Recorded(s) && Saved(c, s)
    ensures s.next in s.completed <==> s.next in s.recovered
  {
    hide Copies;
    if s.next in s.completed {
      assert OnceIfClaimed(c, s, s.next);
      assert 1 == multiset(s.completed)[s.next] <= multiset(s.merged)[s.next];
    }
  }

  lemma SubmitAccounted(c: Config, s: State)
    requires Accounted(c, s) && Recorded(s) && Saved(c, s) && Enabled(c, s, Submit)
    ensures Accounted(c, Apply(c, s, Submit))
  {
    TestSeesRecovered(c, s);
    var t := Apply(c, s, Submit);
    assert c.first <= s.next;
    hide Span, Held, Recorded, Saved;
    forall l
      ensures OnceIfClaimed(c, t, l)
    {
      assert OnceIfClaimed(c, s, l);
    }
  }

  lemma QueuesHoldMessages(c: Config, s: State)
    requires InputSide(c, s) && OutputSide(s)
    ensures s.prepared != [] ==> s.prepared[0].Bucket? || s.prepared[0] == Sentinel
    ensures s.results != [] ==> s.results[0].Bucket? || s.results[0] == Sentinel
  {
    hide Working;
  }

  lemma MovesClaimNothing(c: Config, s: State, step: Step)
    requires Enabled(c, s, step) && step != Submit
    ensures var t := Apply(c, s, step); t.recovered == s.recovered && t.next == s.next
  {
  }

  lemma AccountedStays(c: Config, s: State, step: Step)
    requires Accounted(c, s) && Recorded(s) && Saved(c, s) && InputSide(c, s) && OutputSide(s)
    requires Enabled(c, s, step)
    ensures Accounted(c, Apply(c, s, step))
  {
    if step == Submit {
      SubmitAccounted(c, s);
      hide *;
    } else {
      QueuesHoldMessages(c, s);
      hide InputSide, OutputSide, Saved, Recorded, Apply, Enabled, OnceIfClaimed;
      forall l
        ensures OnceIfClaimed(c, Apply(c, s, step), l)
      {
        assert OnceIfClaimed(c, s, l);
        MoveAccounted(c, s, step, l);
      }
    }
  }

  lemma MoveAccounted(c: Config, s: State, step: Step, l: nat)
    requires OnceIfClaimed(c, s, l) && Enabled(c, s, step) && step != Submit
    requires s.results != [] ==> s.results[0].Bucket? || s.results[0] == Sentinel
    ensures OnceIfClaimed(c, Apply(c, s, step), l)
  {
    MovesClaimNothing(c, s, step);
    hide Copies, Apply, Enabled;
    MovesKeepLists(c, s, step, l);
  }

  lemma PendingHead(pending: seq<nat>)
    requires pending != []
    ensures multiset(pending) == multiset(pending[1..]) + One(Bucket(pending[0]))
  {
    assert pending == [pending[0]] + pending[1..];
  }

  lemma PrefetchMoves(c: Config, s: State, step: Step, l: nat)
    requires Enabled(c, s, step) && (step.Fetch? || step.Prepared?)
    ensures Apply(c, s, step).merged == s.merged && Copies(s, l) == Copies(Apply(c, s, step), l)
  {
    hide Held, One;
    if step.Fetch? {
      HeldFill(s.prefetchers, step.w, Bucket(s.pending[0]));
      PendingHead(s.pending);
    } else {
      HeldEmpty(s.prefetchers, step.w, Free);
      HeldSnoc(s.prepared, s.prefetchers[step.w]);
    }
  }

  lemma ComputeMoves(c: Config, s: State, step: Step, l: nat)
    requires Enabled(c, s, step) && (step.Take? || step.Relay? || step.Give?)
    ensures Apply(c, s, step).merged == s.merged && Copies(s, l) == Copies(Apply(c, s, step), l)
  {
    hide Held;
    if step.Take? {
      HeldHead(s.prepared);
      HeldFill(s.computers, step.w, s.prepared[0]);
    } else if step.Relay? {
      HeldSnoc(s.prepared, Sentinel);
      HeldFill(s.computers, step.w, Stopped);
    } else {
      HeldEmpty(s.computers, step.w, Free);
      HeldSnoc(s.results, s.computers[step.w]);
    }
  }

  lemma OtherMoves(c: Config, s: State, step: Step, l: nat)
    requires Enabled(c, s, step) && step != Submit
    requires !step.Fetch? && !step.Prepared? && !step.Take? && !step.Relay? && !step.Give?
    requires step.Read? ==> s.results[0].Bucket? || s.results[0] == Sentinel
    ensures var t := Apply(c, s, step);
      multiset(s.merged)[l] + Copies(s, l) == multiset(t.merged)[l] + Copies(t, l)
  {
    hide Held;
    if step.PrepareEnds? {
      HeldSnoc(s.prepared, Sentinel);
    } else if step.ComputeEnds? {
      HeldSnoc(s.results, Sentinel);
    } else if step.Read? {
      HeldHead(s.results);
    }
  }

  /** All other steps only move lists, or merge one that the main thread holds. */
  lemma MovesKeepLists(c: Config, s: State, step: Step, l: nat)
    requires Enabled(c, s, step) && step != Submit
    requires s.results != [] ==> s.results[0].Bucket? || s.results[0] == Sentinel
    ensures var t := Apply(c, s, step);
      multiset(s.merged)[l] + Copies(s, l) == multiset(t.merged)[l] + Copies(t, l)
  {
    assert step.Read? ==> s.results != [];
    hide *;
    if step.Fetch? || step.Prepared? {
      PrefetchMoves(c, s, step, l);
    } else if step.Take? || step.Relay? || step.Give? {
      ComputeMoves(c, s, step, l);
    } else {
      OtherMoves(c, s, step, l);
    }
  }

  lemma StepKeepsInvariant(c: Config, s: State, step: Step)
    requires Invariant(c, s) && Enabled(c, s, step)
    ensures Invariant(c, Apply(c, s, step))
  {
    AccountedStays(c, s, step);
    RecordedStays(c, s, step);
    SavedStays(c, s, step);
    InputSideStays(c, s, step);
    OutputSideStays(c, s, step);
    hide *;
  }

  // Runs with crashes.

  datatype Event = Do(step: Step) | Crash

  ghost predicate Happens(c: Config, s: State, e: Event, t: State) {
    match e
    case Do(step) => Enabled(c, s, step) && t == Apply(c, s, step)
    case Crash => t == Start(c, if c.checkpoints then s.file else None)
  }

  /** A run of the first process and of those started again after crashes. */
  ghost predicate IsRun(c: Config, states: seq<State>, events: seq<Event>) {
    && |states| == |events| + 1
    && states[0] == Start(c, None)
    && forall i :: 0 <= i < |events| ==> Happens(c, states[i], events[i], states[i + 1])
  }

  lemma EventKeepsInvariant(c: Config, s: State, e: Event, t: State)
    requires Invariant(c, s) && Happens(c, s, e, t)
    ensures Invariant(c, t)
  {
    match e {
      case Do(step) => StepKeepsInvariant(c, s, step);
      case Crash => StartIsGood(c, if c.checkpoints then s.file else None);
    }
  }

  lemma {:induction false} InvariantAlways(c: Config, states: seq<State>, events: seq<Event>, i: nat)
    requires IsRun(c, states, events) && i < |states|
    ensures Invariant(c, states[i])
  {
    if i == 0 {
      StartIsGood(c, None);
      hide *;
    } else {
      InvariantAlways(c, states, events, i - 1);
      assert Happens(c, states[i - 1], events[i - 1], states[i - 1 + 1]);
      hide *;
      EventKeepsInvariant(c, states[i - 1], events[i - 1], states[i]);
    }
  }

  /** When the main thread has read the sentinel nothing is left in any thread or queue. */
  lemma FinishedIsEmpty(c: Config, s: State)
    requires Staffed(c) && InputSide(c, s) && OutputSide(s) && s.main == Finished
    ensures (forall l :: Copies(s, l) == 0) && s.next >= c.last
  {
    assert s.computers[0] == Stopped;
    assert s.prepareDone;
    NothingHeld(s.prefetchers);
    NothingHeld(s.prepared);
    NothingHeld(s.computers);
    NothingHeld(s.results);
    hide Held, InputSide, OutputSide;
  }

  /** Whatever the threads did and wherever the process crashed, at the end every list of the range has been
      merged exactly once into the heap that is left, and the completed set is the whole range. Before that
      no list has been merged into it twice. */
  lemma EachListMergedOnce(c: Config, states: seq<State>, events: seq<Event>, i: nat)
    requires Staffed(c) && IsRun(c, states, events) && i < |states|
    ensures forall l :: multiset(states[i].merged)[l] <= 1
    ensures forall l :: multiset(states[i].merged)[l] > 0 ==> c.first <= l < c.last
    ensures states[i].main == Finished ==>
      && multiset(states[i].merged) == multiset(Span(c.first, c.last))
      && states[i].completed == Span(c.first, c.last)
  {
    hide *;
    InvariantAlways(c, states, events, i);
    SplitInvariant(c, states[i]);
    MergedAtMostOnce(c, states[i]);
    if states[i].main == Finished {
      AllMerged(c, states[i]);
    }
  }

  lemma SplitInvariant(c: Config, s: State)
    requires Invariant(c, s)
    ensures Accounted(c, s) && Recorded(s) && Saved(c, s) && InputSide(c, s) && OutputSide(s)
  {
    hide Accounted, Recorded, Saved, InputSide, OutputSide;
  }

  lemma AllMerged(c: Config, s: State)
    requires Staffed(c) && Invariant(c, s) && s.main == Finished
    ensures multiset(s.merged) == multiset(Span(c.first, c.last)) && s.completed == Span(c.first, c.last)
  {
    SplitInvariant(c, s);
    FinishedIsEmpty(c, s);
    hide Copies, InputSide, OutputSide;
    forall l
      ensures multiset(s.merged)[l] == multiset(Span(c.first, c.last))[l]
    {
      assert OnceIfClaimed(c, s, l);
    }
    forall l
      ensures l in s.completed <==> l in Span(c.first, c.last)
    {
      assert multiset(s.completed)[l] == multiset(s.merged)[l];
    }
  }

  // Progress.

  /** Putting the sentinel back never waits: the first queue is empty then. */
  lemma RelayNeverBlocks(c: Config, s: State, w: nat)
    requires Invariant(c, s) && w < |s.computers| && s.computers[w] == Sentinel
    ensures s.prepared == [] && Enabled(c, s, Relay(w))
  {
    assert s.prepareDone;
  }

  /** Nothing is behind a sentinel in either queue. */
  lemma SentinelIsLast(c: Config, s: State, i: nat)
    requires Invariant(c, s)
    ensures i < |s.prepared| && s.prepared[i] == Sentinel ==> i == |s.prepared| - 1
    ensures i < |s.results| && s.results[i] == Sentinel ==> i == |s.results| - 1
  {
    hide Accounted, Recorded, Saved, Working;
    if i + 1 < |s.results| {
      assert s.results[i] == s.results[..|s.results| - 1][i];
    }
    if i + 1 < |s.prepared| {
      assert s.prepared[i] == s.prepared[..|s.prepared| - 1][i];
    }
  }

  /** No deadlock: until the main thread has read the last sentinel some thread can take a step. */
  lemma SomeStepEnabled(c: Config, s: State) returns (step: Step)
    requires Staffed(c) && Invariant(c, s) && s.main != Finished
    ensures Enabled(c, s, step)
  {
    hide Accounted, Recorded;
    if s.main != Reading {
      return match s.main case Merging(l) => Merge case Completing(l) => Complete case Deciding => Skip case _ => Replace;
    }
    if s.results != [] {
      return Read;
    }
    if w: nat :| w < |s.computers| && s.computers[w].Bucket? {
      return Give(w);
    }
    if w: nat :| w < |s.computers| && s.computers[w] == Sentinel {
      RelayNeverBlocks(c, s, w);
      return Relay(w);
    }
    if forall w :: 0 <= w < |s.computers| ==> s.computers[w] == Stopped {
      return ComputeEnds;
    }
    var w: nat :| w < |s.computers| && s.computers[w] != Stopped;
    if s.prepared != [] {
      return Take(w);
    }
    assert !s.prepareDone;
    if s.next < c.last {
      return Submit;
    }
    if v: nat :| v < |s.prefetchers| && s.prefetchers[v].Bucket? {
      return Prepared(v);
    }
    if s.pending != [] {
      return Fetch(0);
    }
    return PrepareEnds;
  }

  function StepsLeft(slot: Slot): nat {
    match slot
    case Free => 2
    case Bucket(_) => 2
    case Sentinel => 1
    case Stopped => 0
  }

  function TasksLeft(slots: seq<Slot>): nat {
    if slots == [] then 0 else TasksLeft(slots[..|slots| - 1]) + StepsLeft(slots[|slots| - 1])
  }

  lemma {:induction false} TasksLeftUpdate(slots: seq<Slot>, w: nat, x: Slot)
    requires w < |slots|
    ensures TasksLeft(slots[w := x]) + StepsLeft(slots[w]) == TasksLeft(slots) + StepsLeft(x)
  {
    var n := |slots| - 1;
    if w == n {
      assert slots[w := x][..n] == slots[..n];
    } else {
      TasksLeftUpdate(slots[..n], w, x);
      assert slots[w := x][..n] == slots[..n][w := x];
      assert slots[..n][w] == slots[w];
    }
  }

  function MainLeft(main: Main): nat {
    match main
    case Reading => 1
    case Merging(_) => 6
    case Completing(_) => 5
    case Deciding => 4
    case Replacing => 3
    case Finished => 0
  }

  /** A bound on the steps left without a crash. */
  function Remaining(c: Config, s: State): nat {
    12 * (if s.next < c.last then c.last - s.next else 0) + 11 * |s.pending| + 10 * |Held(s.prefetchers)| +
    9 * |Held(s.prepared)| + 8 * |Held(s.computers)| + 7 * |Held(s.results)| + MainLeft(s.main) +
    TasksLeft(s.computers) + (if s.prepareDone then 0 else 1) + (if s.computeDone then 0 else 1)
  }

  lemma PrefetchStepsEnd(c: Config, s: State, step: Step)
    requires Enabled(c, s, step) && (step.Fetch? || step.Prepared?)
    ensures Remaining(c, Apply(c, s, step)) < Remaining(c, s)
  {
    hide Held, TasksLeft;
    if step.Fetch? {
      HeldFill(s.prefetchers, step.w, Bucket(s.pending[0]));
    } else {
      HeldEmpty(s.prefetchers, step.w, Free);
      HeldSnoc(s.prepared, s.prefetchers[step.w]);
    }
  }

  lemma ComputeStepsEnd(c: Config, s: State, step: Step)
    requires Enabled(c, s, step) && (step.Take? || step.Relay? || step.Give?)
    requires step.Take? ==> s.prepared[0].Bucket? || s.prepared[0] == Sentinel
    ensures Remaining(c, Apply(c, s, step)) < Remaining(c, s)
  {
    hide Held, TasksLeft;
    if step.Take? {
      HeldHead(s.prepared);
      HeldFill(s.computers, step.w, s.prepared[0]);
      TasksLeftUpdate(s.computers, step.w, s.prepared[0]);
    } else if step.Relay? {
      HeldSnoc(s.prepared, Sentinel);
      HeldFill(s.computers, step.w, Stopped);
      TasksLeftUpdate(s.computers, step.w, Stopped);
    } else {
      HeldEmpty(s.computers, step.w, Free);
      TasksLeftUpdate(s.computers, step.w, Free);
      HeldSnoc(s.results, s.computers[step.w]);
    }
  }

  lemma OtherStepsEnd(c: Config, s: State, step: Step)
    requires Enabled(c, s, step)
    requires !step.Fetch? && !step.Prepared? && !step.Take? && !step.Relay? && !step.Give?
    requires step.Read? ==> s.results[0].Bucket? || s.results[0] == Sentinel
    ensures Remaining(c, Apply(c, s, step)) < Remaining(c, s)
  {
    hide Held, TasksLeft;
    if step.PrepareEnds? {
      HeldSnoc(s.prepared, Sentinel);
    } else if step.ComputeEnds? {
      HeldSnoc(s.results, Sentinel);
    } else if step.Read? {
      HeldHead(s.results);
    }
  }

  /** Every step, whichever thread takes it, brings the end nearer. */
  lemma StepsComeToAnEnd(c: Config, s: State, step: Step)
    requires InputSide(c, s) && OutputSide(s) && Enabled(c, s, step)
    ensures Remaining(c, Apply(c, s, step)) < Remaining(c, s)
  {
    QueuesHoldMessages(c, s);
    assert step.Take? ==> s.prepared != [];
    assert step.Read? ==> s.results != [];
    hide *;
    if step.Fetch? || step.Prepared? {
      PrefetchStepsEnd(c, s, step);
    } else if step.Take? || step.Relay? || step.Give? {
      ComputeStepsEnd(c, s, step);
    } else {
      OtherStepsEnd(c, s, step);
    }
  }

  /** Without a crash a process takes at most so many more steps; when none is possible it has finished. */
  lemma {:induction false} RunsEnd(c: Config, states: seq<State>, steps: seq<Step>)
    requires Staffed(c) && |states| == |steps| + 1 && Invariant(c, states[0])
    requires forall i :: 0 <= i < |steps| ==> Happens(c, states[i], Do(steps[i]), states[i + 1])
    ensures |steps| <= Remaining(c, states[0])
    ensures Invariant(c, states[|steps|])
    ensures (forall step :: !Enabled(c, states[|steps|], step)) ==> states[|steps|].main == Finished
  {
    if steps == [] {
      if states[0].main != Finished {
        var step := SomeStepEnabled(c, states[0]);
      }
    } else {
      assert Happens(c, states[0], Do(steps[0]), states[0 + 1]);
      StepKeepsInvariant(c, states[0], steps[0]);
      StepsComeToAnEnd(c, states[0], steps[0]);
      assert states[1..][|steps| - 1] == states[|steps|];
      hide *;
      forall i | 0 <= i < |steps[1..]|
        ensures Happens(c, states[1..][i], Do(steps[1..][i]), states[1..][i + 1])
      {
        assert Happens(c, states[i + 1], Do(steps[i + 1]), states[i + 1 + 1]);
      }
      RunsEnd(c, states[1..], steps[1..]);
    }
  }
}
