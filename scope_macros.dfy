/** The loops that the macros of scope_bound/scope.h expand to, run step by
    step. Each `for (init; cond; incr) body` becomes `init; while cond { body;
    incr }` (section 6.8.5.3 of ISO/IEC 9899:2011): a `break` in the body leaves
    only the innermost loop (6.8.6.3), a `continue` goes on to that loop's
    increment (6.8.6.2), and a `return` leaves the function altogether. Each
    expansion has its own flag `_se350_loop_has_run`, here the local `hasRun`
    of each call. Every method is proved to agree with ScopeSemantics. */
module ScopeMacros {
  import opened ScopeSemantics

  /** A statement of a block is no larger than the block. */
  lemma {:induction false} ElementSize<E>(b: seq<Stmt<E>>, i: nat)
    requires i < |b|
    ensures StmtSize(b[i]) <= BlockSize(b)
    decreases i
  {
    if i > 0 {
      ElementSize(b[1..], i - 1);
      assert b[1..][i - 1] == b[i];
    }
  }

  /** Runs one statement. */
  method ExecStmt<E>(s: Stmt<E>) returns (trace: seq<E>, signal: Signal)
    decreases StmtSize(s), 0
    ensures Run(trace, signal) == Meaning(s)
  {
    match s
    case Do(e) =>
      trace, signal := e.effects, Done;
    case Break =>
      trace, signal := [], Broke;
    case Continue =>
      trace, signal := [], Continued;
    case Return =>
      trace, signal := [], Returned;
    case Scoped(form, enter, exit, body) =>
      ghost var enters: nat, runs: nat, exits: nat;
      match form
      case PairedAction =>
        trace, signal, enters, runs, exits := RunScope(enter, exit, body);
      case BoundResource =>
        trace, signal, enters, runs, exits := RunUsing(enter, exit, body);
  }

  /** Runs a block: its statements in order, until one of them breaks,
      continues or returns. */
  method ExecBlock<E>(b: seq<Stmt<E>>) returns (trace: seq<E>, signal: Signal)
    decreases BlockSize(b), 1
    ensures Run(trace, signal) == Exec(b)
  {
    trace, signal := [], Done;
    var i := 0;
    while i < |b| && signal == Done
      invariant 0 <= i <= |b|
      invariant Exec(b) == Then(Run(trace, signal), b[i..])
      decreases |b| - i
    {
      ElementSize(b, i);
      assert b[i..][1..] == b[i + 1..];
      var t, s := ExecStmt(b[i]);
      trace, signal := trace + t, s;
      i := i + 1;
    }
  }

  /** The condition of SE350_SCOPE's outer loop,
      `_se350_loop_has_run ? 0 : ((void)(before_expr), 1)`, evaluated as C
      does: the conditional operator (section 6.5.15) evaluates only the
      operand the flag selects, and the loop goes on while the value is
      nonzero (6.8.5). The comma operator drops the value of `before_expr`, so
      the condition holds exactly while the flag is clear, whatever that value
      is, even the `0` of SE350_SCOPE_EXIT. */
  method OuterCondition<E>(hasRun: bool, before: Expr<E>) returns (holds: bool, effects: seq<E>)
    ensures holds == !hasRun
    ensures effects == if hasRun then [] else before.effects
  {
    var condition: Expr<E>;
    if hasRun {
      condition := Constant(0);
    } else {
      condition := Comma(before, Constant(1));
    }
    holds, effects := condition.value != 0, condition.effects;
  }

  /** SE350_SCOPE(before, after) { body }: the outer loop evaluates `before` in
      its condition and `after` in its increment; the inner loop runs the body.
      The ghost results count the evaluations of `before`, the runs of the body
      and the evaluations of `after`. */
  method RunScope<E>(before: Expr<E>, after: Expr<E>, body: seq<Stmt<E>>)
    returns (trace: seq<E>, signal: Signal, ghost enters: nat, ghost runs: nat, ghost exits: nat)
    decreases BlockSize(body), 2
    ensures var r := Exec(body);
      if r.signal == Returned then trace == before.effects + r.trace && signal == Returned
      else trace == before.effects + r.trace + after.effects && signal == Done
    ensures enters == 1 && runs == 1
    ensures exits == if signal == Returned then 0 else 1
  {
    ghost var r := Exec(body);
    trace, signal, enters, runs, exits := [], Done, 0, 0, 0;
    var hasRun := false;
    var holds, effects := OuterCondition(hasRun, before);
    trace := trace + effects;
    enters := enters + if holds then 1 else 0;
    while holds
      invariant holds ==> !hasRun && trace == before.effects && enters == 1 && runs == 0 && exits == 0
      invariant !holds ==> hasRun && r.signal != Returned && enters == 1 && runs == 1 && exits == 1
      invariant !holds ==> trace == before.effects + r.trace + after.effects
      decreases holds
    {
      while !hasRun
        invariant !hasRun ==> trace == before.effects && runs == 0
        invariant hasRun ==> trace == before.effects + r.trace && runs == 1
        invariant hasRun ==> r.signal == Done || r.signal == Continued
        decreases !hasRun
      {
        var t, s := ExecBlock(body);
        trace, runs := trace + t, runs + 1;
        if s == Broke {
          break;
        }
        if s == Returned {
          signal := Returned;
          return;
        }
        hasRun := true;
      }
      trace, exits := trace + after.effects, exits + 1;
      hasRun := true;
      holds, effects := OuterCondition(hasRun, before);
      trace := trace + effects;
      enters := enters + if holds then 1 else 0;
    }
  }

  /** SE350_SCOPE_EXIT(after) { body }, which is SE350_SCOPE(0, after): the
      body, then `after` unless the body returned. */
  method RunScopeExit<E>(after: Expr<E>, body: seq<Stmt<E>>) returns (trace: seq<E>, signal: Signal)
    ensures var r := Exec(body);
      if r.signal == Returned then trace == r.trace && signal == Returned
      else trace == r.trace + after.effects && signal == Done
  {
    ghost var enters: nat, runs: nat, exits: nat;
    trace, signal, enters, runs, exits := RunScope(Constant(0), after, body);
  }

  /** SE350_USING(decl, after) { body }: an outer loop that only declares the
      flag and has no increment, a middle loop that evaluates `decl` in its
      init and `after` in its increment, and an inner loop that runs the body.
      The ghost results count the evaluations of `decl`, the runs of the body
      and the evaluations of `after`. */
  method RunUsing<E>(decl: Expr<E>, after: Expr<E>, body: seq<Stmt<E>>)
    returns (trace: seq<E>, signal: Signal, ghost decls: nat, ghost runs: nat, ghost exits: nat)
    decreases BlockSize(body), 2
    ensures var r := Exec(body);
      if r.signal == Returned then trace == decl.effects + r.trace && signal == Returned
      else trace == decl.effects + r.trace + after.effects && signal == Done
    ensures decls == 1 && runs == 1
    ensures exits == if signal == Returned then 0 else 1
  {
    ghost var r := Exec(body);
    trace, signal, decls, runs, exits := [], Done, 0, 0, 0;
    var hasRun := false;
    while !hasRun
      invariant !hasRun ==> trace == [] && decls == 0 && runs == 0 && exits == 0
      invariant hasRun ==> r.signal != Returned && decls == 1 && runs == 1 && exits == 1
      invariant hasRun ==> trace == decl.effects + r.trace + after.effects
      decreases !hasRun
    {
      trace, decls := trace + decl.effects, decls + 1;
      while !hasRun
        invariant !hasRun ==> trace == decl.effects && runs == 0 && exits == 0
        invariant hasRun ==> r.signal != Returned && runs == 1 && exits == 1
        invariant hasRun ==> trace == decl.effects + r.trace + after.effects
        decreases !hasRun
      {
        while !hasRun
          invariant !hasRun ==> trace == decl.effects && runs == 0
          invariant hasRun ==> trace == decl.effects + r.trace && runs == 1
          invariant hasRun ==> r.signal == Done || r.signal == Continued
          decreases !hasRun
        {
          var t, s := ExecBlock(body);
          trace, runs := trace + t, runs + 1;
          if s == Broke {
            break;
          }
          if s == Returned {
            signal := Returned;
            return;
          }
          hasRun := true;
        }
        trace, exits := trace + after.effects, exits + 1;
        hasRun := true;
      }
    }
  }
}
