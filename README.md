# Scope-bound execution in C, modelled in Dafny

`scope_bound/scope.h` gives C a way to tie an enter action and an exit action
to a block with four macros:

- `SE350_SCOPE(before, after)` builds two nested `for` loops around the block.
- `SE350_SCOPE_EXIT(after)` is `SE350_SCOPE(0, after)`.
- `SE350_USING(decl, after)` builds three nested `for` loops around the block.
- `SE350_SCOPE_BREAK` is `break`.

Each expansion declares its own flag, `_se350_loop_has_run`. The loop
conditions and increments use that flag to run the body exactly once.
`before_expr` is evaluated in the first condition check. `after_expr` is
evaluated in the increment. A `break` leaves only the inner loop, so
`after_expr` still runs. A `return` skips it. `scope_bound/usage.c` repeats
the same four macros (lines 17-65). Its `main` holds four scope constructs,
one of them two chained `SE350_USING`.

The model has four modules.

- `ScopeSemantics` (scope_semantics.dfy): a small statement language for
  scope bodies.
  - Expression statements carry their effects.
  - There are statements for `break`, `continue` and `return`.
  - A `Scoped` statement is built by one of the macros.
  - Two functions, `Meaning` and `Exec`, state what the header's comments
    promise. The enter effects come first, then the body runs once. The exit
    effects follow unless the body returned. A `break` or `continue` does not
    get past the scope.
- `ScopeMacros` (scope_macros.dfy): one method per macro.
  - Each method runs the `for` loops of the expansion as `while` loops over a
    local `hasRun`. It follows the C order of evaluation for `for`, `break`,
    `continue` and the comma operator: sections 6.8.5.3, 6.8.6.3, 6.8.6.2 and
    6.5.17 of ISO/IEC 9899:2011.
  - Each method is proved to give the trace and the outcome that the
    semantics gives.
  - Ghost counters show that the enter expression is evaluated once, the
    body runs once, and the exit expression is evaluated once (none after a
    `return`).
  - The copies of the macros in usage.c are modelled by the same methods.
- `ScopeProperties` (scope_properties.dfy): lemmas about the semantics.
  - A `break` or `continue` still runs the exit expression.
  - A `return` skips it.
  - A scope stops `break` and `continue` from reaching anything around it.
  - Enter and exit effects happen once each, in order.
  - Nested or chained scopes unwind in LIFO order.
- `Usage` (usage.dfy): `main` of usage.c, with the allocator's blocks as
  parameters.

## Model

| member | source | states |
|---|---|---|
| ScopeMacros.RunScope | scope_bound/scope.h:22-24 | The outer loop evaluates `before` once in its first condition check. The inner loop runs the body once. The outer increment evaluates `after` once and sets the flag, so the second check evaluates nothing and the construct ends. The trace is `before`, the body's trace, then `after`, and control goes on normally. A body that breaks, continues or completes gives the same trace. A body that returns gives `before` and the body, and the return passes on. Ghost counts: 1 enter, 1 body run, 1 exit (0 after a return). |
| ScopeMacros.OuterCondition | scope_bound/scope.h:23 | The body evaluates `_se350_loop_has_run ? 0 : ((void)(before_expr), 1)` through the conditional and comma operators and tests the value against 0. The result: the condition holds exactly when the flag is clear, and it evaluates `before` only then. The comma operator drops the value of `before`, so no value of `before`, not even the `0` of `SE350_SCOPE_EXIT`, stops the body. |
| ScopeMacros.RunScopeExit | scope_bound/scope.h:40 | `SE350_SCOPE(0, after)` gives the body's trace and then `after` exactly once. With a `return` it gives only the body's trace. The `0` has no effect, and its false value does not stop the body. |
| ScopeMacros.RunUsing | scope_bound/scope.h:57-60 | The outer loop has no increment. The middle loop evaluates `decl` once in its init and `after` once in its increment. The inner loop runs the body once. The trace is `decl`, the body, then `after`. A break or continue gives the same trace. A return gives `decl` and the body. The outer loop ends after one pass because the middle loop exits only once the flag is set. Ghost counts: 1 decl, 1 body run, 1 exit (0 after a return). |
| ScopeMacros.ExecBlock | scope_bound/scope.h:62-70 | A body's statements run in order until one breaks, continues or returns. The result equals `Exec` of the body. |
| ScopeMacros.ExecStmt | scope_bound/scope.h:14-15 | One statement runs and its result equals `Meaning`. `break` gives Broke, `continue` gives Continued and `return` gives Returned. A nested scope runs through its macro's loops. |
| ScopeProperties.JumpSkipsRest | scope_bound/scope.h:62-70 | After `break` or `continue`, the rest of the block does not run. The block's trace is the trace up to the jump. |
| ScopeProperties.ScopeBreakStillExits | scope_bound/scope.h:62-70 | `SE350_SCOPE_BREAK` (or `continue`) in a body skips the rest of the body. The scope's trace is `enter`, the body up to the break, then `exit`. The scope ends normally, so the break affects only this scope. |
| ScopeProperties.ReturnSkipsExit | scope_bound/scope.h:15 | A `return` in a body gives `enter`, then the body up to the return. `exit` does not run and the scope ends by Returned. |
| ScopeProperties.ScopeIsBarrier | scope_bound/scope.h:14 | A scope always ends by Done or Returned, never by Broke or Continued. The statements after it run exactly when it ended by Done. |
| ScopeProperties.EnterAndExitOnce | scope_bound/scope.h:18-21 | Take an enter effect `x` and an exit effect `y` that differ and do not occur in the body. Then `x` occurs exactly once and is first. `y` occurs exactly once and is last, or never if the body returns. |
| ScopeProperties.NestedUnwindLifo | scope_bound/scope.h:18-24 | A scope nested in another scope's body runs its enter, body and exit inside the outer scope. The outer scope's trace is: outer enter, statements before, inner enter, inner body, inner exit, statements after, outer exit. Release is in reverse order of acquisition. |
| ScopeProperties.NestedReturnSkipsAllExits | scope_bound/scope.h:15 | A `return` in a nested scope's body skips the inner exit and the outer exit. Its trace is the two enters and the work done before the return. |
| ScopeProperties.ChainedScopes | scope_bound/scope.h:57-60 | For two scopes chained before one body, the trace is: enter 1, enter 2, body, exit 2, exit 1. After a return it is: enter 1, enter 2, body. |
| ScopeProperties.ScopeExitRunsBodyThenExit | scope_bound/scope.h:39-40 | `SE350_SCOPE_EXIT(a)` gives the same run as `SE350_SCOPE` with any effect-free `before`: the body, then `a`, or only the body if it returns. |
| Usage.EmptyInterruptFreeBlock | scope_bound/usage.c:75-80 | An empty `INTERRUPT_FREE_BLOCK` disables interrupts and then enables them, each exactly once, and control goes on. |
| Usage.DoubleUsingReleasesInReverse | scope_bound/usage.c:93-99 | The chained `SE350_USING` over `p4` and `p5` acquires `p4`, then `p5`. It runs the body once, then releases `p5`, then `p4`. A `return` in the body skips both releases. |
| Usage.DoubleUsingBreakReleasesBoth | scope_bound/usage.c:94-95 | A `break` in the shared body ends only the `p5` scope. Both blocks are still released, `p5` first, and control goes on after the construct. |
| Usage.ReturnLeaksBlock | scope_bound/usage.c:41-46 | A `return` inside `SE350_USING` over `p3` leaves `p3` acquired. `log_release(p3)` does not occur in the trace. |
| Usage.UsageMain | scope_bound/usage.c:77-100 | `main` produces exactly this trace: disable and enable interrupts; acquire `p2`, write 6, release `p2`; acquire `p3`, write 7, release `p3`; acquire `p4`, acquire `p5`, write 8 through `p4`, write 9 through `p5`, release `p5`, release `p4`. |

## Left out

- `printf`, including the message printed by `log_release`, is I/O. It is not in the trace.
- `request_memory_block` and `release_memory_block` come from a foreign RTOS allocator. The blocks the allocator returns are parameters of `UsageMain`. `log_release(p)` is one `Release(p)` effect.
- `__disable_irq` and `__enable_irq` are hardware intrinsics. Each is one opaque effect.
- Memory is not modelled. A write through `p` is a `Write(p, v)` effect. That `log_release(p2)` sees the value written shows only as the write coming before the release in the trace.
- The name that `SE350_USING`'s `decl` binds is not modelled as a binding. The exit expression names the block it releases directly. Preprocessor text, name shadowing and C type rules for `decl` are left out too.
- A scope body here holds expression statements, `break`, `continue`, `return` and nested scopes. It holds no loops, `switch` or `goto` of its own. Inside such a construct, a `break` would belong to it and not to the scope.
- The body language has no `if`. A conditional statement, such as the `if (earlyCondition) { SE350_SCOPE_BREAK; }` of the header's example, is represented by the branch it takes. The lemmas hold for every body, so they cover either branch.
- An enter expression that fails partway, `longjmp` and other non-local exits besides `return`, and interrupt or thread concurrency are undefined by the code and are not modelled.
