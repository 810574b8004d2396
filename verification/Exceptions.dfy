// The setjmp exception chain of components/blackmagic/exception.h and
// exception.c. Programs of nested try blocks, sequences and raises run on the
// linked chain of handler frames, and the run is proved equal to structured
// exceptions, which know nothing of frames.

module Exceptions {
  import opened Common

  // ---- structured exceptions -----------------------------------------------

  /** `Try` is a TRY_CATCH block followed by `if (e.type) caught`. */
  datatype Program =
    | Skip
    | Emit(id: int)
    | Raise(kind: bv32, msg: int)
    | Sequence(first: Program, second: Program)
    | Try(mask: bv32, body: Program, caught: Program)

  datatype Event = Emitted(id: int) | Entered(mask: bv32) | Caught(kind: bv32, msg: int)

  datatype Outcome = Done | Raised(kind: bv32, msg: int)

  predicate Meets(mask: bv32, kind: bv32) {
    mask & kind != 0
  }

  /** The innermost enclosing block whose mask meets the kind takes an exception;
      an exception leaves every other block. */
  function Eval(p: Program): (r: (Outcome, seq<Event>)) {
    match p
    case Skip => (Done, [])
    case Emit(id) => (Done, [Emitted(id)])
    case Raise(kind, msg) => (Raised(kind, msg), [])
    case Sequence(first, second) =>
      var (out, evs) := Eval(first);
      if out.Raised? then (out, evs) else (Eval(second).0, evs + Eval(second).1)
    case Try(mask, body, caught) =>
      var (out, evs) := Eval(body);
      if out.Raised? && Meets(mask, out.kind)
      then (Eval(caught).0, [Entered(mask)] + evs + [Caught(out.kind, out.msg)] + Eval(caught).1)
      else (out, [Entered(mask)] + evs)
  }

  /** EXCEPTION_ALL takes every kind there is, EXCEPTION_ERROR and EXCEPTION_TIMEOUT do not
      take each other, a mask of several takes what one of them takes, and kind 0, which
      stands for no exception, is taken by none. */
  lemma Masks(a: bv32, b: bv32, kind: bv32)
    ensures Meets(0xFFFF_FFFF, kind) <==> kind != 0
    ensures Meets(1, 1) && Meets(2, 2) && !Meets(1, 2) && !Meets(2, 1) && !Meets(a, 0)
    ensures Meets(a | b, kind) <==> Meets(a, kind) || Meets(b, kind)
  {
    assert 0xFFFF_FFFF & kind == kind;
    assert a & 0 == 0;
    EitherBit(a, b, kind);
    hide Meets;
    TwoKinds();
  }

  lemma EitherBit(a: bv32, b: bv32, kind: bv32)
    ensures (a | b) & kind != 0 <==> a & kind != 0 || b & kind != 0
  {
    assert (a | b) & kind == (a & kind) | (b & kind);
  }

  lemma TwoKinds()
    ensures Meets(1, 1) && Meets(2, 2) && !Meets(1, 2) && !Meets(2, 1)
  {
  }

  /** A raise inside blocks with the given masks, the first outermost, each with code in
      its handler, behind it, and behind the raise. */
  function Nested(masks: seq<bv32>, kind: bv32, msg: int): Program {
    if |masks| == 0 then Sequence(Raise(kind, msg), Emit(0))
    else Sequence(Try(masks[0], Nested(masks[1..], kind, msg), Emit(|masks|)), Emit(-|masks|))
  }

  function Entries(masks: seq<bv32>): (evs: seq<Event>)
    ensures |evs| == |masks| && forall i :: 0 <= i < |evs| ==> evs[i] == Entered(masks[i])
  {
    seq(|masks|, i requires 0 <= i < |masks| => Entered(masks[i]))
  }

  /** The code behind blocks k, k - 1, ..., 0 of n. */
  function Behind(n: int, k: int): seq<Event>
    decreases k + 1
  {
    if k < 0 then [] else [Emitted(k - n)] + Behind(n, k - 1)
  }

  lemma {:induction false} NobodyTakes(masks: seq<bv32>, kind: bv32, msg: int)
    requires forall i :: 0 <= i < |masks| ==> !Meets(masks[i], kind)
    ensures Eval(Nested(masks, kind, msg)) == (Raised(kind, msg), Entries(masks))
  {
    if |masks| > 0 {
      NobodyTakes(masks[1..], kind, msg);
      assert Entries(masks) == [Entered(masks[0])] + Entries(masks[1..]);
    } else {
      assert Entries(masks) == [];
    }
  }

  lemma {:induction false} BehindOnce(n: int, k: int)
    requires 0 <= k
    decreases k
    ensures Behind(n, k) == Behind(n - 1, k - 1) + [Emitted(-n)]
  {
    if k > 0 {
      BehindOnce(n, k - 1);
      assert [Emitted(k - n)] + (Behind(n - 1, k - 2) + [Emitted(-n)])
          == ([Emitted(k - n)] + Behind(n - 1, k - 2)) + [Emitted(-n)];
    } else {
      assert Behind(n, 0) == [Emitted(-n)] + Behind(n, -1);
    }
  }

  /** For any nesting: the innermost block that meets the kind takes the exception; no
      code behind the raise or behind the blocks inside it runs; its handler runs, and
      then the code behind it and the blocks around it. */
  lemma {:induction false} InnermostTakes(masks: seq<bv32>, kind: bv32, msg: int, k: nat)
    requires k < |masks| && Meets(masks[k], kind)
    requires forall i :: k < i < |masks| ==> !Meets(masks[i], kind)
    ensures Eval(Nested(masks, kind, msg))
         == (Done, Entries(masks) + [Caught(kind, msg), Emitted(|masks| - k)] + Behind(|masks|, k))
  {
    hide Eval, Meets, Behind, Entries, Nested;
    if k > 0 {
      InnermostTakes(masks[1..], kind, msg, k - 1);
      TakenInside(masks, kind, msg, k);
    } else {
      NobodyTakes(masks[1..], kind, msg);
      TakenHere(masks, kind, msg);
    }
  }

  lemma EntriesFirst(masks: seq<bv32>)
    requires |masks| > 0
    ensures Entries(masks) == [Entered(masks[0])] + Entries(masks[1..])
  {
  }

  lemma NestedFirst(masks: seq<bv32>, kind: bv32, msg: int)
    requires |masks| > 0
    ensures Nested(masks, kind, msg)
         == Sequence(Try(masks[0], Nested(masks[1..], kind, msg), Emit(|masks|)), Emit(-|masks|))
  {
  }

  lemma TakenInside(masks: seq<bv32>, kind: bv32, msg: int, k: nat)
    requires 0 < k < |masks|
    requires var n, rest := |masks| - 1, masks[1..];
             Eval(Nested(rest, kind, msg))
             == (Done, Entries(rest) + [Caught(kind, msg), Emitted(n - (k - 1))] + Behind(n, k - 1))
    ensures Eval(Nested(masks, kind, msg))
         == (Done, Entries(masks) + [Caught(kind, msg), Emitted(|masks| - k)] + Behind(|masks|, k))
  {
    hide Eval, Behind, Entries, Nested;
    var n, rest := |masks|, masks[1..];
    var caught, behind := [Caught(kind, msg), Emitted(n - k)], Behind(n - 1, k - 1);
    EntriesFirst(masks);
    NestedFirst(masks, kind, msg);
    BehindOnce(n, k);
    BlockPasses(masks[0], Nested(rest, kind, msg), n, Entries(rest) + caught + behind);
    Joined([Entered(masks[0])], Entries(rest), caught, behind, [Emitted(-n)]);
  }

  lemma TakenHere(masks: seq<bv32>, kind: bv32, msg: int)
    requires |masks| > 0 && Meets(masks[0], kind)
    requires Eval(Nested(masks[1..], kind, msg)) == (Raised(kind, msg), Entries(masks[1..]))
    ensures Eval(Nested(masks, kind, msg))
         == (Done, Entries(masks) + [Caught(kind, msg), Emitted(|masks|)] + Behind(|masks|, 0))
  {
    var n, rest := |masks|, masks[1..];
    assert Behind(n, 0) == [Emitted(-n)];
    hide Eval, Behind, Entries, Nested, Meets;
    EntriesFirst(masks);
    NestedFirst(masks, kind, msg);
    BlockTakes(masks[0], Nested(rest, kind, msg), n, Entries(rest), kind, msg);
    Regroup(Entries(masks), [Caught(kind, msg)], [Emitted(n)]);
    assert [Caught(kind, msg)] + [Emitted(n)] == [Caught(kind, msg), Emitted(n)];
  }

  lemma BlockPasses(mask: bv32, body: Program, n: int, evs: seq<Event>)
    requires Eval(body) == (Done, evs)
    ensures Eval(Sequence(Try(mask, body, Emit(n)), Emit(-n))) == (Done, [Entered(mask)] + evs + [Emitted(-n)])
  {
    assert Eval(Try(mask, body, Emit(n))) == (Done, [Entered(mask)] + evs);
    assert Eval(Emit(-n)) == (Done, [Emitted(-n)]);
  }

  lemma BlockTakes(mask: bv32, body: Program, n: int, evs: seq<Event>, kind: bv32, msg: int)
    requires Eval(body) == (Raised(kind, msg), evs) && Meets(mask, kind)
    ensures Eval(Sequence(Try(mask, body, Emit(n)), Emit(-n)))
         == (Done, [Entered(mask)] + evs + [Caught(kind, msg)] + [Emitted(n)] + [Emitted(-n)])
  {
    assert Eval(Emit(n)) == (Done, [Emitted(n)]) && Eval(Emit(-n)) == (Done, [Emitted(-n)]);
    assert Eval(Try(mask, body, Emit(n))) == (Done, [Entered(mask)] + evs + [Caught(kind, msg)] + [Emitted(n)]);
  }

  lemma Joined(a: seq<Event>, b: seq<Event>, c: seq<Event>, d: seq<Event>, e: seq<Event>)
    ensures a + (b + c + d) + e == (a + b) + c + (d + e)
  {
  }

  /** An exception from a handler is not for the block of the handler. */
  lemma HandlerRaises(mask: bv32, first: bv32, second: bv32, msg: int)
    requires Meets(mask, first)
    ensures Eval(Try(mask, Raise(first, msg), Raise(second, msg))).0 == Raised(second, msg)
  {
  }

  // ---- handler frames ------------------------------------------------------

  class Frame {
    var kind: bv32
    var msg: int
    var mask: bv32
    var outer: Frame?

    constructor (mask: bv32, outer: Frame?)
      ensures kind == 0 && this.mask == mask && this.outer == outer
    {
      kind := 0;
      this.mask, this.outer := mask, outer;
    }
  }

  /** Frame number k of a chain, innermost first, or null past its end. */
  function At(chain: seq<Frame>, k: nat): Frame? {
    if k < |chain| then chain[k] else null
  }

  /** The outer pointers spell out the chain. */
  ghost predicate Linked(chain: seq<Frame>)
    reads chain
  {
    && Distinct(chain)
    && forall i {:trigger chain[i].outer} :: 0 <= i < |chain| ==> chain[i].outer == At(chain, i + 1)
  }

  datatype FrameState = FrameState(kind: bv32, msg: int, mask: bv32)

  ghost function States(chain: seq<Frame>): (ss: seq<FrameState>)
    reads chain
    ensures |ss| == |chain|
    ensures forall i :: 0 <= i < |chain| ==> ss[i] == FrameState(chain[i].kind, chain[i].msg, chain[i].mask)
  {
    seq(|chain|, i requires 0 <= i < |chain| reads chain => FrameState(chain[i].kind, chain[i].msg, chain[i].mask))
  }

  /** The position of the block that takes an exception, or the length. */
  function Catcher(ss: seq<FrameState>, kind: bv32): (k: nat)
    ensures k <= |ss|
    ensures k < |ss| ==> Meets(ss[k].mask, kind)
    ensures forall i :: 0 <= i < k ==> !Meets(ss[i].mask, kind)
  {
    if |ss| == 0 || Meets(ss[0].mask, kind) then 0 else 1 + Catcher(ss[1..], kind)
  }

  lemma NoCatcher(ss: seq<FrameState>, kind: bv32)
    requires forall i :: 0 <= i < |ss| ==> !Meets(ss[i].mask, kind)
    ensures Catcher(ss, kind) == |ss|
  {
    hide Meets;
  }

  lemma CatcherIs(ss: seq<FrameState>, kind: bv32, k: nat)
    requires k < |ss| && Meets(ss[k].mask, kind) && forall i :: 0 <= i < k ==> !Meets(ss[i].mask, kind)
    ensures Catcher(ss, kind) == k
  {
    hide Meets;
  }

  /** What an outcome does to the frames: only the catcher's changes. */
  function After(ss: seq<FrameState>, out: Outcome): seq<FrameState> {
    if out.Done? then ss
    else
      var k := Catcher(ss, out.kind);
      if k == |ss| then ss else ss[k := FrameState(out.kind, out.msg, ss[k].mask)]
  }

  /** How a piece of code ends: it runs on, a longjmp is under way to a frame, or
      the program is aborted. */
  datatype Flow = Completed | Jump(target: Frame) | Aborted

  function FlowOf(chain: seq<Frame>, ss: seq<FrameState>, out: Outcome): Flow
    requires |ss| == |chain|
  {
    if out.Done? then Completed
    else
      var k := Catcher(ss, out.kind);
      if k == |ss| then Aborted else Jump(chain[k])
  }

  /** The head of the chain afterwards; an aborted program has none to speak of. */
  predicate HeadAfter(head: Frame?, chain: seq<Frame>, ss: seq<FrameState>, out: Outcome)
    requires |ss| == |chain|
  {
    if out.Done? then head == At(chain, 0)
    else
      var k := Catcher(ss, out.kind);
      k < |ss| ==> head == At(chain, k + 1)
  }

  /** A new innermost frame catches what it meets ... */
  lemma InnerCatches(e: Frame, s: FrameState, chain: seq<Frame>, ss: seq<FrameState>, out: Outcome, head: Frame?)
    requires |ss| == |chain| && out.Raised? && Meets(s.mask, out.kind)
    ensures FlowOf([e] + chain, [s] + ss, out) == Jump(e)
    ensures HeadAfter(head, [e] + chain, [s] + ss, out) ==> head == At(chain, 0)
    ensures After([s] + ss, out) == [FrameState(out.kind, out.msg, s.mask)] + ss
  {
    assert Catcher([s] + ss, out.kind) == 0;
  }

  /** ... and passes on the rest. */
  lemma InnerPasses(e: Frame, s: FrameState, chain: seq<Frame>, ss: seq<FrameState>, out: Outcome, head: Frame?)
    requires |ss| == |chain| && out.Raised? && !Meets(s.mask, out.kind)
    ensures FlowOf([e] + chain, [s] + ss, out) == FlowOf(chain, ss, out) && !FlowOf(chain, ss, out).Completed?
    ensures HeadAfter(head, [e] + chain, [s] + ss, out) ==> HeadAfter(head, chain, ss, out)
    ensures After([s] + ss, out) == [s] + After(ss, out)
    ensures FlowOf(chain, ss, out).Jump? ==> FlowOf(chain, ss, out).target in chain
  {
    assert ([s] + ss)[1..] == ss;
    assert Catcher([s] + ss, out.kind) == 1 + Catcher(ss, out.kind);
  }

  lemma OnDone(chain: seq<Frame>, ss: seq<FrameState>, out: Outcome, head: Frame?)
    requires |ss| == |chain| && out.Done?
    ensures FlowOf(chain, ss, out) == Completed && After(ss, out) == ss
    ensures HeadAfter(head, chain, ss, out) <==> head == At(chain, 0)
  {
  }

  lemma HeadsAndTails<T>(a: T, x: seq<T>, b: T, y: seq<T>)
    requires [a] + x == [b] + y
    ensures a == b && x == y
  {
    assert ([a] + x)[0] == ([b] + y)[0];
    assert ([a] + x)[1..] == x && ([b] + y)[1..] == y;
  }

  /** How things stand once the body of a block with frame e has ended: `now` is
      the frame's state, `later` that of the outer frames. */
  lemma Unwound(e: Frame, s: FrameState, chain: seq<Frame>, ss: seq<FrameState>, out: Outcome,
                head: Frame?, now: FrameState, later: seq<FrameState>)
    requires |ss| == |chain| && e !in chain
    requires [now] + later == After([s] + ss, out)
    requires if out.Done? then head == At([e] + chain, 1) else HeadAfter(head, [e] + chain, [s] + ss, out)
    ensures var flow := FlowOf([e] + chain, [s] + ss, out);
            if out.Done? then flow == Completed && head == At(chain, 0) && later == ss && now == s
            else if Meets(s.mask, out.kind) then
              && flow == Jump(e) && head == At(chain, 0) && later == ss
              && now == FrameState(out.kind, out.msg, s.mask)
            else
              && flow == FlowOf(chain, ss, out) && !flow.Completed? && flow != Jump(e)
              && later == After(ss, out) && HeadAfter(head, chain, ss, out)
  {
    hide Catcher, Meets, FlowOf, HeadAfter, After;
    if out.Done? {
      OnDone([e] + chain, [s] + ss, out, head);
      HeadsAndTails(now, later, s, ss);
    } else if Meets(s.mask, out.kind) {
      InnerCatches(e, s, chain, ss, out, head);
      HeadsAndTails(now, later, FrameState(out.kind, out.msg, s.mask), ss);
    } else {
      InnerPasses(e, s, chain, ss, out, head);
      HeadsAndTails(now, later, s, After(ss, out));
    }
  }

  class Thread {
    var innermost: Frame?
    var log: seq<Event>

    constructor ()
      ensures innermost == null && log == []
    {
      innermost, log := null, [];
    }

    /** raise_exception: the walk along the chain. */
    method RaiseException(kind: bv32, msg: int, ghost chain: seq<Frame>) returns (flow: Flow)
      requires Linked(chain) && innermost == At(chain, 0)
      modifies this`innermost, chain
      ensures Linked(chain)
      ensures States(chain) == After(old(States(chain)), Raised(kind, msg))
      ensures flow == FlowOf(chain, old(States(chain)), Raised(kind, msg))
      ensures HeadAfter(innermost, chain, old(States(chain)), Raised(kind, msg))
    {
      hide Meets, Catcher, Distinct;
      var e := innermost;
      ghost var i, ss := 0, States(chain);
      while e != null
        invariant 0 <= i <= |chain| && e == At(chain, i)
        invariant forall j :: 0 <= j < i ==> !Meets(chain[j].mask, kind)
        decreases |chain| - i
      {
        if Meets(e.mask, kind) {
          CatcherIs(ss, kind, i);
          OnlyFrame(chain, i);
          e.kind := kind;
          e.msg := msg;
          innermost := e.outer;
          assert States(chain) == ss[i := FrameState(kind, msg, ss[i].mask)];
          return Jump(e);
        }
        e := e.outer;
        i := i + 1;
      }
      NoCatcher(ss, kind);
      return Aborted;
    }

    lemma OnlyFrame(chain: seq<Frame>, i: nat)
      requires Distinct(chain) && i < |chain|
      ensures forall j :: 0 <= j < |chain| && j != i ==> chain[j] != chain[i]
    {
    }

    /** Runs a program under the active blocks `chain`. It ends as structured
        exceptions say, with the same events; the chain is as before, less the
        blocks a jump leaves, and no other frame has changed. */
    method Run(p: Program, ghost chain: seq<Frame>) returns (flow: Flow)
      requires Linked(chain) && innermost == At(chain, 0)
      modifies this, chain
      ensures Linked(chain)
      ensures log == old(log) + Eval(p).1
      ensures States(chain) == After(old(States(chain)), Eval(p).0)
      ensures flow == FlowOf(chain, old(States(chain)), Eval(p).0)
      ensures HeadAfter(innermost, chain, old(States(chain)), Eval(p).0)
      decreases p
    {
      hide Distinct, Catcher, Meets, Linked, FlowOf, HeadAfter, After, Eval;
      ghost var ss := States(chain);
      EvalOfOthers(p);
      OnDone(chain, ss, Done, innermost);
      match p {
        case Skip => flow := Completed;
        case Emit(id) =>
          log := log + [Emitted(id)];
          flow := Completed;
        case Raise(kind, msg) => flow := RaiseException(kind, msg, chain);
        case Sequence(first, second) =>
          flow := Run(first, chain);
          FlowTells(chain, ss, Eval(first).0, innermost);
          if flow.Completed? {
            flow := Run(second, chain);
          }
        case Try(mask, body, caught) => flow := RunTry(p, chain);
      }
    }

    lemma FlowTells(chain: seq<Frame>, ss: seq<FrameState>, out: Outcome, head: Frame?)
      requires |ss| == |chain|
      ensures FlowOf(chain, ss, out).Completed? <==> out.Done?
      ensures out.Done? && HeadAfter(head, chain, ss, out) ==> head == At(chain, 0) && After(ss, out) == ss
    {
    }

    /** TRY_CATCH: link a frame and run the body in the one-shot loop; a longjmp
        to the frame comes back past the loop. Then the code after the block. */
    method RunTry(p: Program, ghost chain: seq<Frame>) returns (flow: Flow)
      requires p.Try? && Linked(chain) && innermost == At(chain, 0)
      modifies this, chain
      ensures Linked(chain)
      ensures log == old(log) + Eval(p).1
      ensures States(chain) == After(old(States(chain)), Eval(p).0)
      ensures flow == FlowOf(chain, old(States(chain)), Eval(p).0)
      ensures HeadAfter(innermost, chain, old(States(chain)), Eval(p).0)
      decreases p, 1
    {
      hide Catcher, Linked, Distinct, HeadAfter, FlowOf, After, Eval, Meets;
      var e;
      ghost var ss := States(chain);
      EvalOfTry(p);
      MeetsOnlyReal(p.mask, Eval(p.body).0);
      flow, e := RunGuarded(p, chain);
      OnDone(chain, ss, Done, innermost);
      if !flow.Completed? {
        return;
      }
      if e.kind != 0 {
        log := log + [Caught(e.kind, e.msg)];
        flow := Run(p.caught, chain);
      }
    }

    lemma EvalOfOthers(p: Program)
      ensures p.Skip? ==> Eval(p) == (Done, [])
      ensures p.Emit? ==> Eval(p) == (Done, [Emitted(p.id)])
      ensures p.Raise? ==> Eval(p) == (Raised(p.kind, p.msg), [])
      ensures p.Sequence? ==>
                var (out, evs) := Eval(p.first);
                Eval(p) == if out.Raised? then (out, evs) else (Eval(p.second).0, evs + Eval(p.second).1)
    {
    }

    lemma EvalOfTry(p: Program)
      requires p.Try?
      ensures var (out, evs) := Eval(p.body);
              Eval(p) == if out.Raised? && Meets(p.mask, out.kind)
                         then (Eval(p.caught).0,
                               [Entered(p.mask)] + evs + [Caught(out.kind, out.msg)] + Eval(p.caught).1)
                         else (out, [Entered(p.mask)] + evs)
    {
    }

    lemma MeetsOnlyReal(mask: bv32, out: Outcome)
      ensures out.Raised? && Meets(mask, out.kind) ==> out.kind != 0
    {
    }

    /** The block itself: its frame is linked, its body run, and a jump to it
        taken. `e` is the frame, for the code after the block to look at. */
    method RunGuarded(p: Program, ghost chain: seq<Frame>) returns (flow: Flow, e: Frame)
      requires p.Try? && Linked(chain) && innermost == At(chain, 0)
      modifies this, chain
      ensures Linked(chain) && e !in chain
      ensures log == old(log) + [Entered(p.mask)] + Eval(p.body).1
      ensures var out := Eval(p.body).0;
              var caught := out.Raised? && Meets(p.mask, out.kind);
              if out.Done? || caught then
                && flow == Completed && innermost == At(chain, 0)
                && States(chain) == old(States(chain))
                && e.kind == (if caught then out.kind else 0) && (caught ==> e.msg == out.msg)
              else
                && flow == FlowOf(chain, old(States(chain)), out) && !flow.Completed?
                && States(chain) == After(old(States(chain)), out)
                && HeadAfter(innermost, chain, old(States(chain)), out)
      decreases p, 0, 1
    {
      hide Catcher, Meets, Linked, Distinct, Eval, FlowOf, HeadAfter, After;
      ghost var ss, out := States(chain), Eval(p.body).0;
      e := new Frame(p.mask, innermost);
      ghost var s := FrameState(0, e.msg, p.mask);
      innermost := e;
      Pushed(e, chain);
      assert States([e] + chain) == [s] + ss;
      flow := RunBody(p, e, [e] + chain);
      assert States([e] + chain) == After([s] + ss, out);
      Popped(e, chain);
      Unwound(e, s, chain, ss, out, innermost, FrameState(e.kind, e.msg, e.mask), States(chain));
      if flow.Jump? && flow.target == e {
        flow := Completed;  // the longjmp lands behind the loop
      }
    }

    /** The one-shot loop around the body: while the frame is the innermost one,
        run the body and unlink the frame. */
    method RunBody(p: Program, e: Frame, ghost chain: seq<Frame>) returns (flow: Flow)
      requires p.Try? && Linked(chain) && |chain| > 0 && chain[0] == e == innermost
      modifies this, chain
      ensures Linked(chain)
      ensures log == old(log) + [Entered(p.mask)] + Eval(p.body).1
      ensures States(chain) == After(old(States(chain)), Eval(p.body).0)
      ensures flow == FlowOf(chain, old(States(chain)), Eval(p.body).0)
      ensures if Eval(p.body).0.Done? then innermost == At(chain, 1)
              else HeadAfter(innermost, chain, old(States(chain)), Eval(p.body).0)
      decreases p, 0, 0
    {
      hide Catcher, Meets, Distinct, Eval, HeadAfter;
      flow := Completed;
      ghost var again := true;
      while innermost == e
        invariant Linked(chain) && again == (innermost == e)
        invariant again ==> log == old(log) && States(chain) == old(States(chain))
        invariant !again ==>
            && Eval(p.body).0.Done? && flow == Completed && innermost == At(chain, 1)
            && log == old(log) + [Entered(p.mask)] + Eval(p.body).1
            && States(chain) == old(States(chain))
        decreases again
      {
        log := log + [Entered(p.mask)];
        flow := Run(p.body, chain);
        if !flow.Completed? {
          return;
        }
        OuterIsElse(chain);
        innermost := e.outer;
        again := false;
      }
    }

    lemma OuterIsElse(chain: seq<Frame>)
      requires Linked(chain) && |chain| > 0
      ensures chain[0].outer == At(chain, 1) && At(chain, 1) != chain[0]
    {
    }

    lemma Pushed(e: Frame, chain: seq<Frame>)
      requires Linked(chain) && e !in chain && e.outer == At(chain, 0)
      ensures Linked([e] + chain)
      ensures States([e] + chain) == [FrameState(e.kind, e.msg, e.mask)] + States(chain)
    {
      hide States;
      var inner := [e] + chain;
      forall i | 0 <= i < |inner| ensures inner[i].outer == At(inner, i + 1) {
        if i > 0 {
          assert inner[i] == chain[i - 1] && chain[i - 1].outer == At(chain, i);
        }
      }
      StatesOfPushed(e, chain);
    }

    lemma StatesOfPushed(e: Frame, chain: seq<Frame>)
      ensures States([e] + chain) == [FrameState(e.kind, e.msg, e.mask)] + States(chain)
    {
      var inner, ss := [e] + chain, [FrameState(e.kind, e.msg, e.mask)] + States(chain);
      forall i | 0 <= i < |inner| ensures States(inner)[i] == ss[i] {
        assert i > 0 ==> inner[i] == chain[i - 1];
      }
    }

    lemma Popped(e: Frame, chain: seq<Frame>)
      requires Linked([e] + chain)
      ensures Linked(chain)
      ensures States([e] + chain) == [FrameState(e.kind, e.msg, e.mask)] + States(chain)
    {
      hide States;
      var inner := [e] + chain;
      forall i | 0 <= i < |chain| ensures chain[i].outer == At(chain, i + 1) {
        assert inner[i + 1] == chain[i] && inner[i + 1].outer == At(inner, i + 2);
      }
      forall i, j | 0 <= i < j < |chain| ensures chain[i] != chain[j] {
        assert inner[i + 1] == chain[i] && inner[j + 1] == chain[j];
      }
      StatesOfPushed(e, chain);
    }
  }
}
