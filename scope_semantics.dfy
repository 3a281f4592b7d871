/** What a scope built by the macros of scope_bound/scope.h is documented to do,
    stated directly as functions over a small statement language: the enter
    expression runs ahead of the body, the exit expression runs once when the
    body ends by falling through, `break` or `continue`, and not at all when the
    body returns from the enclosing function. The methods of module ScopeMacros
    run the loops the macros expand to and are proved to agree with this. */
module ScopeSemantics {

  /** An expression evaluated for its side effects only (the macros discard its
      value with a `(void)` cast): the effects it has, in order, and the value it
      yields. A call of a `void` function is given the value 0. */
  datatype Expr<E> = Expr(effects: seq<E>, value: int)

  /** Which macro built a scope: SE350_SCOPE, two nested `for` loops, or
      SE350_USING, three. SE350_SCOPE_EXIT is SE350_SCOPE with `0` to enter. */
  datatype Form = PairedAction | BoundResource

  /** The statements of a scope body. */
  datatype Stmt<E> =
    | Do(e: Expr<E>)          // an expression statement
    | Break                   // `break`, which SE350_SCOPE_BREAK expands to
    | Continue                // `continue`
    | Return                  // `return` from the function holding the scope
    | Scoped(form: Form, enter: Expr<E>, exit: Expr<E>, body: seq<Stmt<E>>)

  /** How control leaves a statement or a block. */
  datatype Signal = Done | Broke | Continued | Returned

  /** The effects a statement or block had, in order, and how control left it. */
  datatype Run<E> = Run(trace: seq<E>, signal: Signal)

  /** An integer constant such as the `0` that SE350_SCOPE_EXIT passes as
      SE350_SCOPE's `before_expr`: no effect, and the value `v`. */
  function Constant<E>(v: int): Expr<E>
  {
    Expr([], v)
  }

  /** The comma operator `(void)(a), b` (section 6.5.17 of ISO/IEC 9899:2011):
      `a` is evaluated first and its value dropped, then `b`, whose value is the
      value of the whole expression. */
  function Comma<E>(a: Expr<E>, b: Expr<E>): Expr<E>
  {
    Expr(a.effects + b.effects, b.value)
  }

  /** SE350_SCOPE_EXIT(after) { body } */
  function ScopeExit<E>(exit: Expr<E>, body: seq<Stmt<E>>): Stmt<E>
  {
    Scoped(PairedAction, Constant(0), exit, body)
  }

  /** Termination measures for the mutual recursion between a statement and
      the block of statements it holds. */
  function StmtSize<E>(s: Stmt<E>): nat
    decreases s
  {
    match s
    case Scoped(_, _, _, body) => 1 + BlockSize(body)
    case _ => 1
  }

  function BlockSize<E>(b: seq<Stmt<E>>): nat
    decreases b
  {
    if b == [] then 0 else StmtSize(b[0]) + BlockSize(b[1..])
  }

  /** The documented contract of every scope form: `enter` first, then the body
      once; `exit` once after a body that falls through, breaks or continues,
      after which control goes on past the scope; no `exit` after a body that
      returns, and the return goes on to the enclosing function. */
  function Guarded<E>(enter: seq<E>, exit: seq<E>, body: Run<E>): Run<E>
  {
    if body.signal == Returned then Run(enter + body.trace, Returned)
    else Run(enter + body.trace + exit, Done)
  }

  /** The run of one statement. */
  function Meaning<E>(s: Stmt<E>): Run<E>
    decreases StmtSize(s), 0
  {
    match s
    case Do(e) => Run(e.effects, Done)
    case Break => Run([], Broke)
    case Continue => Run([], Continued)
    case Return => Run([], Returned)
    case Scoped(_, enter, exit, body) => Guarded(enter.effects, exit.effects, Exec(body))
  }

  /** The run of a block: its statements in order, until one of them ends
      with a signal other than Done (section 6.8.6 of ISO/IEC 9899:2011). */
  function Exec<E>(b: seq<Stmt<E>>): Run<E>
    decreases BlockSize(b), 1
  {
    if b == [] then Run([], Done)
    else
      var first := Meaning(b[0]);
      if first.signal != Done then first
      else
        var rest := Exec(b[1..]);
        Run(first.trace + rest.trace, rest.signal)
  }

  /** The run of a block that already produced `r` and has `rest` still to run. */
  function Then<E>(r: Run<E>, rest: seq<Stmt<E>>): Run<E>
  {
    if r.signal != Done then r
    else
      var more := Exec(rest);
      Run(r.trace + more.trace, more.signal)
  }

  /** Number of occurrences of `x` in `s`. */
  function Count<E(==)>(x: E, s: seq<E>): nat
  {
    if s == [] then 0 else (if s[0] == x then 1 else 0) + Count(x, s[1..])
  }
}
