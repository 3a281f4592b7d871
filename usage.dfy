/** The demonstration in scope_bound/usage.c: `main` and its four scope
    constructs, one of them two chained SE350_USING.
    The memory-block allocator of rtx.h is foreign code, so the blocks that
    request_memory_block hands out are parameters; the interrupt intrinsics
    and log_release are opaque effects; the printf calls are left out. */
module Usage {
  import opened ScopeSemantics
  import opened ScopeMacros
  import opened ScopeProperties

  /** A memory block handed out by request_memory_block, known only by its
      address. */
  datatype Block = Block(address: nat)

  /** The effects of `main` that the model observes. */
  datatype Effect =
    | DisableIrq                      // __disable_irq()
    | EnableIrq                       // __enable_irq()
    | Acquire(block: Block)           // request_memory_block() returned `block`
    | Release(block: Block)           // log_release(block) gave `block` back
    | Write(block: Block, value: int) // *p = value, with p pointing to `block`

  /** `__disable_irq()` and `__enable_irq()`, `void` calls. */
  function DisableInterrupts(): Expr<Effect> { Expr([DisableIrq], 0) }
  function EnableInterrupts(): Expr<Effect> { Expr([EnableIrq], 0) }

  /** `int* p = request_memory_block()`, where the allocator returns `p`. */
  function RequestBlock(p: Block): Expr<Effect> { Expr([Acquire(p)], p.address) }

  /** `log_release(p)`, a `void` call. */
  function LogRelease(p: Block): Expr<Effect> { Expr([Release(p)], 0) }

  /** `*p = v`, whose value is `v`. */
  function Store(p: Block, v: int): Expr<Effect> { Expr([Write(p, v)], v) }

  /** INTERRUPT_FREE_BLOCK { body }, that is
      SE350_SCOPE(__disable_irq(), __enable_irq()) { body }. */
  function InterruptFreeBlock(body: seq<Stmt<Effect>>): Stmt<Effect>
  {
    Scoped(PairedAction, DisableInterrupts(), EnableInterrupts(), body)
  }

  /** SE350_USING(int* p = request_memory_block(), log_release(p)) { body } */
  function UsingBlock(p: Block, body: seq<Stmt<Effect>>): Stmt<Effect>
  {
    Scoped(BoundResource, RequestBlock(p), LogRelease(p), body)
  }

  /** The two chained SE350_USING over `p4` and `p5` in front of one body. */
  function DoubleUsing(p4: Block, p5: Block, body: seq<Stmt<Effect>>): Stmt<Effect>
  {
    UsingBlock(p4, [UsingBlock(p5, body)])
  }

  /** An empty INTERRUPT_FREE_BLOCK disables then enables interrupts, each
      exactly once, and control goes on after it. */
  lemma EmptyInterruptFreeBlock()
    ensures Meaning(InterruptFreeBlock([])) == Run([DisableIrq, EnableIrq], Done)
    ensures var t := Meaning(InterruptFreeBlock([])).trace;
      Count(DisableIrq, t) == 1 && Count(EnableIrq, t) == 1
  {
    EnterAndExitOnce(PairedAction, DisableInterrupts(), EnableInterrupts(), [], DisableIrq, EnableIrq);
  }

  /** The chained SE350_USING over `p4` and `p5`: `p4` then `p5` acquired
      before the body, the body once, then `p5` released before `p4`; a
      `return` in the body skips both releases. */
  lemma DoubleUsingReleasesInReverse(p4: Block, p5: Block, body: seq<Stmt<Effect>>)
    ensures var r := Exec(body);
      Meaning(DoubleUsing(p4, p5, body)) ==
        if r.signal == Returned then Run([Acquire(p4), Acquire(p5)] + r.trace, Returned)
        else Run([Acquire(p4), Acquire(p5)] + r.trace + [Release(p5), Release(p4)], Done)
  {
    ChainedScopes(DoubleUsing(p4, p5, body), UsingBlock(p5, body));
    var t := Exec(body).trace;
    assert [Acquire(p4)] + [Acquire(p5)] + t == [Acquire(p4), Acquire(p5)] + t;
    assert [Acquire(p4)] + [Acquire(p5)] + t + [Release(p5)] + [Release(p4)]
        == [Acquire(p4), Acquire(p5)] + t + [Release(p5), Release(p4)];
  }

  /** A `break` (SE350_SCOPE_BREAK) in the shared body of the chained form
      ends only the innermost, `p5`, scope: the rest of the body is skipped,
      both blocks are still released, `p5` first, and control goes on after
      the construct. */
  lemma DoubleUsingBreakReleasesBoth(p4: Block, p5: Block, pre: seq<Stmt<Effect>>, rest: seq<Stmt<Effect>>)
    requires Exec(pre).signal == Done
    ensures Meaning(DoubleUsing(p4, p5, pre + [Break] + rest))
         == Run([Acquire(p4), Acquire(p5)] + Exec(pre).trace + [Release(p5), Release(p4)], Done)
  {
    JumpSkipsRest(pre, Break, rest);
    DoubleUsingReleasesInReverse(p4, p5, pre + [Break] + rest);
  }

  /** A `return` in the body of SE350_USING over `p3` leaves `p3` acquired and
      never released. */
  lemma ReturnLeaksBlock(p3: Block, pre: seq<Stmt<Effect>>, rest: seq<Stmt<Effect>>)
    requires Exec(pre).signal == Done
    requires Release(p3) !in Exec(pre).trace
    ensures var r := Meaning(UsingBlock(p3, pre + [Return] + rest));
      r.signal == Returned && r.trace[0] == Acquire(p3) && Count(Release(p3), r.trace) == 0
  {
    ReturnSkipsExit(BoundResource, RequestBlock(p3), LogRelease(p3), pre, rest);
    var t := Exec(pre).trace;
    CountAbsent(Release(p3), t);
    CountConcat(Release(p3), [Acquire(p3)], t);
    assert Count(Release(p3), [Acquire(p3)]) == 0;
  }

  /** `main` of usage.c, run statement by statement, given the blocks the
      allocator hands out in turn. Every scope runs its enter expression,
      its body once and its exit expression once, in that order; the chained
      scopes release in reverse order of acquisition. */
  method UsageMain(p2: Block, p3: Block, p4: Block, p5: Block) returns (log: seq<Effect>)
    ensures log == [DisableIrq, EnableIrq,
                    Acquire(p2), Write(p2, 6), Release(p2),
                    Acquire(p3), Write(p3, 7), Release(p3),
                    Acquire(p4), Acquire(p5), Write(p4, 8), Write(p5, 9), Release(p5), Release(p4)]
  {
    var t: seq<Effect>, s: Signal;
    ghost var enters: nat, runs: nat, exits: nat;
    // INTERRUPT_FREE_BLOCK { }
    t, s, enters, runs, exits := RunScope(DisableInterrupts(), EnableInterrupts(), []);
    log := t;
    // int* p2 = request_memory_block();
    t, s := ExecStmt(Do(RequestBlock(p2)));
    log := log + t;
    // SE350_SCOPE_EXIT(log_release(p2)) { *p2 = 6; }
    var body2 := [Do(Store(p2, 6))];
    assert Exec(body2) == Run([Write(p2, 6)], Done);
    t, s := RunScopeExit(LogRelease(p2), body2);
    log := log + t;
    // SE350_USING(int* p3 = request_memory_block(), log_release(p3)) { *p3 = 7; }
    var body3 := [Do(Store(p3, 7))];
    assert Exec(body3) == Run([Write(p3, 7)], Done);
    t, s, enters, runs, exits := RunUsing(RequestBlock(p3), LogRelease(p3), body3);
    log := log + t;
    // SE350_USING(int* p4 = ..., log_release(p4)) SE350_USING(int* p5 = ..., log_release(p5)) { *p4 = 8; *p5 = 9; }
    var body45 := [Do(Store(p4, 8)), Do(Store(p5, 9))];
    assert body45[1..] == [Do(Store(p5, 9))];
    assert Exec(body45[1..]) == Run([Write(p5, 9)], Done);
    assert Exec(body45) == Run([Write(p4, 8), Write(p5, 9)], Done);
    assert Exec([UsingBlock(p5, body45)])
        == Run([Acquire(p5), Write(p4, 8), Write(p5, 9), Release(p5)], Done);
    t, s, enters, runs, exits := RunUsing(RequestBlock(p4), LogRelease(p4), [UsingBlock(p5, body45)]);
    log := log + t;
  }
}
