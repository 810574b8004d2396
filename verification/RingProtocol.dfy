// One producer and one consumer on the buffer of main/CBUF.h, without a lock:
// each macro is its single steps, and a schedule is any interleaving of them.

module RingProtocol {
  import opened Common
  import opened CircularBuffer

  datatype Producer = Ready | Cleared | Stored

  datatype Consumer<T> = Resting | Found | Loaded(elem: T)

  /** `produced` and `consumed` are history: what the two sides have pushed so
      far, as a number of items of the input, and what has been popped. */
  datatype Ring<T> = Ring(
    entries: seq<T>, get: nat, put: nat,
    producer: Producer, consumer: Consumer<T>,
    produced: nat, consumed: seq<T>)

  /** CBUF_IsFull, CBUF_Push's store and bump; CBUF_IsEmpty, CBUF_Pop's load and
      bump. */
  datatype Step = Clear | Store | BumpPut | Find | Load | BumpGet

  datatype Config<T> = Config(m: nat, size: nat, guarded: bool, input: seq<T>)

  ghost predicate Sane<T>(c: Config<T>, r: Ring<T>) {
    && Shape(c.m, c.size) && |r.entries| == c.size
    && r.get < c.m && r.put < c.m
    && r.produced <= |c.input|
  }

  function Length<T>(c: Config<T>, r: Ring<T>): nat
    requires Sane(c, r)
  {
    Minus(r.put, r.get, c.m)
  }

  function Queued<T>(c: Config<T>, r: Ring<T>): seq<T>
    requires Sane(c, r)
  {
    Visible(r.entries, r.get, Length(c, r))
  }

  /** What one side may do now. An unguarded producer does not look first. */
  predicate Enabled<T>(c: Config<T>, r: Ring<T>, step: Step)
    requires Sane(c, r)
  {
    match step
    case Clear => r.producer.Ready? && r.produced < |c.input| && (c.guarded ==> Length(c, r) != c.size)
    case Store => r.producer.Cleared?
    case BumpPut => r.producer.Stored?
    case Find => r.consumer.Resting? && Length(c, r) != 0
    case Load => r.consumer.Found?
    case BumpGet => r.consumer.Loaded?
  }

  ghost predicate Busy<T>(c: Config<T>, r: Ring<T>) {
    !r.producer.Ready? ==> r.produced < |c.input|
  }

  function Do<T>(c: Config<T>, r: Ring<T>, step: Step): (after: Ring<T>)
    requires Sane(c, r) && Busy(c, r) && Enabled(c, r, step)
    ensures Sane(c, after) && Busy(c, after)
  {
    match step
    case Clear => r.(producer := Cleared)
    case Store => r.(producer := Stored, entries := r.entries[Slot(r.put, c.size) := c.input[r.produced]])
    case BumpPut => r.(producer := Ready, put := Bump(r.put, c.m), produced := r.produced + 1)
    case Find => r.(consumer := Found)
    case Load => r.(consumer := Loaded(r.entries[Slot(r.get, c.size)]))
    case BumpGet => r.(consumer := Resting, get := Bump(r.get, c.m), consumed := r.consumed + [r.consumer.elem])
  }

  function Init<T>(c: Config<T>, entries: seq<T>): (r: Ring<T>)
    requires Shape(c.m, c.size) && |entries| == c.size
    ensures Sane(c, r) && Busy(c, r)
  {
    Ring(entries, 0, 0, Ready, Resting, 0, [])
  }

  /** A run is the list of states it goes through. */
  ghost predicate Follows<T>(c: Config<T>, r: Ring<T>, after: Ring<T>) {
    Sane(c, r) && Busy(c, r) && exists step :: Enabled(c, r, step) && after == Do(c, r, step)
  }

  ghost predicate IsRun<T>(c: Config<T>, run: seq<Ring<T>>) {
    && |run| > 0
    && Shape(c.m, c.size)
    && |run[0].entries| == c.size && run[0] == Init(c, run[0].entries)
    && forall i :: 0 < i < |run| ==> Follows(c, run[i - 1], run[i])
  }

  function Outstanding<T>(r: Ring<T>): int {
    r.produced - |r.consumed|
  }

  /** `k` entries from the get index on are the next input items; the entry just
      stored, not yet announced, is one of them. */
  ghost predicate Inv<T>(c: Config<T>, r: Ring<T>) {
    && Sane(c, r) && Busy(c, r)
    && |r.consumed| <= r.produced
    && r.consumed == c.input[..|r.consumed|]
    && Length(c, r) == Outstanding(r)
    && (r.consumer.Found? || r.consumer.Loaded? ==> Length(c, r) > 0)
    && (c.guarded && r.producer.Cleared? ==> Length(c, r) < c.size)
    && var k := Length(c, r) + if r.producer.Stored? then 1 else 0;
       && k <= c.size
       && Visible(r.entries, r.get, k) == c.input[|r.consumed|..|r.consumed| + k]
       && (r.consumer.Loaded? ==> r.consumer.elem == c.input[|r.consumed|])
  }

  /** Where an unguarded producer must not be: about to store over an unread
      entry, or with so many outstanding that the index difference wraps. */
  ghost predicate Bounded<T>(c: Config<T>, r: Ring<T>) {
    Outstanding(r) < c.m && (r.producer.Stored? ==> Outstanding(r) < c.size)
  }

  lemma ProducerKeepsInv<T>(c: Config<T>, r: Ring<T>, step: Step)
    requires Inv(c, r) && Enabled(c, r, step) && (step.Clear? || step.Store? || step.BumpPut?)
    requires (c.guarded && c.size < c.m) || Bounded(c, Do(c, r, step))
    ensures Inv(c, Do(c, r, step))
  {
    hide Slot, Shape;
    BumpedLength(r.get, r.put, c.m);
    if step.Store? {
      var n, from := Length(c, r), |r.consumed|;
      StoreAt(r.entries, r.get, r.put, c.m, c.input[r.produced]);
      hide Visible, Minus;
      assert c.input[from..from + n] + [c.input[from + n]] == c.input[from..from + (n + 1)];
    }
  }

  lemma BumpGetKeepsInv<T>(c: Config<T>, r: Ring<T>)
    requires Inv(c, r) && r.consumer.Loaded?
    ensures Inv(c, Do(c, r, BumpGet))
  {
    hide Slot, Shape;
    var after, from := Do(c, r, BumpGet), |r.consumed|;
    var k := Length(c, r) + if r.producer.Stored? then 1 else 0;
    BumpedLength(r.get, r.put, c.m);
    TakeAt(r.entries, r.get, k, c.m);
    assert Visible(r.entries, r.get, k)[1..] == Visible(r.entries, after.get, k - 1);
    assert c.input[from..from + k][1..] == c.input[from + 1..from + k];
    assert after.consumed == c.input[..from + 1];
    hide Visible;
    assert k - 1 > 0 ==> Visible(r.entries, after.get, k - 1)[0] == c.input[from + 1];
  }

  lemma ConsumerKeepsInv<T>(c: Config<T>, r: Ring<T>, step: Step)
    requires Inv(c, r) && Enabled(c, r, step) && (step.Find? || step.Load? || step.BumpGet?)
    ensures Inv(c, Do(c, r, step))
  {
    hide Slot, Shape;
    if step.BumpGet? {
      BumpGetKeepsInv(c, r);
    } else if step.Load? {
      var k := Length(c, r) + if r.producer.Stored? then 1 else 0;
      assert Visible(r.entries, r.get, k)[0] == r.entries[Slot(r.get + 0, c.size)];
      assert r.get + 0 == r.get;
    }
  }

  lemma StepKeepsInv<T>(c: Config<T>, r: Ring<T>, after: Ring<T>)
    requires Inv(c, r) && Follows(c, r, after)
    requires (c.guarded && c.size < c.m) || Bounded(c, after)
    ensures Inv(c, after)
  {
    hide Inv, Bounded;
    var step :| Enabled(c, r, step) && after == Do(c, r, step);
    if step.Clear? || step.Store? || step.BumpPut? {
      ProducerKeepsInv(c, r, step);
    } else {
      ConsumerKeepsInv(c, r, step);
    }
  }

  lemma {:induction false} RunKeepsInv<T>(c: Config<T>, run: seq<Ring<T>>)
    requires IsRun(c, run)
    requires (c.guarded && c.size < c.m) || (forall i :: 0 <= i < |run| ==> Bounded(c, run[i]))
    ensures Inv(c, run[|run| - 1])
  {
    hide Bounded, Follows;
    var n := |run| - 1;
    if n > 0 {
      RunKeepsInv(c, run[..n]);
      hide Inv;
      assert Follows(c, run[n - 1], run[n]);
      StepKeepsInv(c, run[n - 1], run[n]);
    }
  }

  /** Nothing is lost, repeated or reordered in any interleaving, and the length
      is the number of items pushed and not yet popped. */
  ghost predicate Conserved<T>(c: Config<T>, r: Ring<T>) {
    && Sane(c, r)
    && Length(c, r) == Outstanding(r)
    && r.consumed + Queued(c, r) == c.input[..r.produced]
  }

  lemma InvConserves<T>(c: Config<T>, r: Ring<T>)
    requires Inv(c, r)
    ensures Conserved(c, r)
  {
    var n, from := Length(c, r), |r.consumed|;
    var k := n + if r.producer.Stored? then 1 else 0;
    assert Queued(c, r) == Visible(r.entries, r.get, k)[..n];
    assert c.input[from..from + k][..n] == c.input[from..from + n];
    assert c.input[..from] + c.input[from..from + n] == c.input[..from + n];
  }

  /** With checks on both sides, every schedule. */
  lemma GuardedRunsConserve<T>(c: Config<T>, run: seq<Ring<T>>)
    requires IsRun(c, run) && c.guarded && c.size < c.m
    ensures Conserved(c, run[|run| - 1]) && Outstanding(run[|run| - 1]) <= c.size
  {
    RunKeepsInv(c, run);
    InvConserves(c, run[|run| - 1]);
  }

  /** Without the producer's check on a buffer as large as the index range, the
      first state with that many outstanding is where conservation ends. */
  lemma UnguardedRunConservesExactly<T>(c: Config<T>, run: seq<Ring<T>>)
    requires IsRun(c, run) && c.size == c.m
    requires forall i :: 0 <= i < |run| - 1 ==> Outstanding(run[i]) < c.m
    ensures Conserved(c, run[|run| - 1]) <==> Outstanding(run[|run| - 1]) < c.m
  {
    hide Inv, Shape, Follows;
    var last := run[|run| - 1];
    LastIsSane(c, run);
    if Outstanding(last) < c.m {
      RunKeepsInv(c, run);
      InvConserves(c, last);
    }
  }

  lemma LastIsSane<T>(c: Config<T>, run: seq<Ring<T>>)
    requires IsRun(c, run)
    ensures Sane(c, run[|run| - 1]) && Busy(c, run[|run| - 1])
  {
    if |run| > 1 {
      assert Follows(c, run[|run| - 2], run[|run| - 1]);
    }
  }

  lemma {:induction false} OneMore<T>(c: Config<T>, run: seq<Ring<T>>, step: Step) returns (longer: seq<Ring<T>>)
    requires IsRun(c, run) && Sane(c, run[|run| - 1]) && Busy(c, run[|run| - 1])
    requires Enabled(c, run[|run| - 1], step)
    ensures IsRun(c, longer) && longer == run + [Do(c, run[|run| - 1], step)]
  {
    hide Enabled, Do;
    longer := run + [Do(c, run[|run| - 1], step)];
    forall i | 0 < i < |longer| ensures Follows(c, longer[i - 1], longer[i]) {
      assert i < |run| ==> longer[i] == run[i] && longer[i - 1] == run[i - 1];
      assert i < |run| ==> Follows(c, run[i - 1], run[i]);
    }
  }

  /** n pushes with the consumer away. */
  lemma {:induction false} OnlyPushes<T>(c: Config<T>, entries: seq<T>, n: nat) returns (run: seq<Ring<T>>)
    requires Shape(c.m, c.size) && c.size == c.m && |entries| == c.size
    requires n <= c.m && n <= |c.input|
    ensures IsRun(c, run)
    ensures var last := run[|run| - 1];
            && last.producer.Ready? && last.consumer.Resting? && last.consumed == [] && last.produced == n
            && |last.entries| == c.size && last.get == 0 && last.put == if n == c.m then 0 else n
  {
    if n == 0 {
      run := [Init(c, entries)];
    } else {
      hide IsRun, Shape;
      run := OnlyPushes(c, entries, n - 1);
      LastIsSane(c, run);
      run := OneMore(c, run, Clear);
      run := OneMore(c, run, Store);
      run := OneMore(c, run, BumpPut);
    }
  }

  ghost predicate Conserves<T>(c: Config<T>, run: seq<Ring<T>>) {
    IsRun(c, run) ==> Conserved(c, run[|run| - 1])
  }

  /** The header's size rule: with both checks in place, a size is safe if and
      only if it is smaller than the number of index values. */
  lemma SizeRule<T(!new)>(m: nat, size: nat, x: T)
    requires Shape(m, size)
    ensures size < m <==> forall input: seq<T>, run: seq<Ring<T>> :: Conserves(Config(m, size, true, input), run)
  {
    hide IsRun, Conserved;
    if size < m {
      forall input: seq<T>, run: seq<Ring<T>> ensures Conserves(Config(m, size, true, input), run) {
        if IsRun(Config(m, size, true, input), run) {
          GuardedRunsConserve(Config(m, size, true, input), run);
        }
      }
    } else {
      var run := FullSizeLoses(m, size, x);
      assert !Conserves(Config(m, size, true, seq(m, i => x)), run);
    }
  }

  lemma FullSizeLoses<T>(m: nat, size: nat, x: T) returns (run: seq<Ring<T>>)
    requires Shape(m, size) && size == m
    ensures !Conserves(Config(m, size, true, seq(m, i => x)), run)
  {
    hide Follows;
    var all := seq(m, i => x);
    run := OnlyPushes(Config(m, size, true, all), all, m);
  }
}
