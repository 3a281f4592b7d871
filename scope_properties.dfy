/** Properties that scope_bound/scope.h promises of its scopes, proved about
    the semantics of module ScopeSemantics. They hold of the step-by-step loops
    too, since the methods of ScopeMacros agree with that semantics. */
module ScopeProperties {
  import opened ScopeSemantics

  /** Running `p + q` is running `p`, then `q` if `p` completed normally. */
  lemma {:induction false} ExecConcat<E>(p: seq<Stmt<E>>, q: seq<Stmt<E>>)
    ensures Exec(p + q) == Then(Exec(p), q)
    decreases |p|
  {
    if p == [] {
      assert p + q == q;
      assert [] + Exec(q).trace == Exec(q).trace;
    } else {
      assert (p + q)[0] == p[0];
      assert (p + q)[1..] == p[1..] + q;
      if Meaning(p[0]).signal == Done {
        ExecConcat(p[1..], q);
        var a, b, c := Meaning(p[0]).trace, Exec(p[1..]).trace, Exec(q).trace;
        assert a + (b + c) == (a + b) + c;
      }
    }
  }

  /** A `break` or `continue` reached after `pre` ends the block there: what
      follows it does not run. */
  lemma JumpSkipsRest<E>(pre: seq<Stmt<E>>, jump: Stmt<E>, rest: seq<Stmt<E>>)
    requires jump == Break || jump == Continue
    requires Exec(pre).signal == Done
    ensures Exec(pre + [jump] + rest) == Run(Exec(pre).trace, Meaning(jump).signal)
  {
    assert pre + [jump] + rest == pre + ([jump] + rest);
    ExecConcat(pre, [jump] + rest);
    assert ([jump] + rest)[0] == jump;
    assert Exec(pre).trace + [] == Exec(pre).trace;
  }

  /** SE350_SCOPE_BREAK (or `continue`) in a scope body skips the rest of the
      body, still runs the exit expression, and ends only this scope: control
      goes on after it with signal Done, so no enclosing scope or loop sees
      the break. */
  lemma ScopeBreakStillExits<E>(form: Form, enter: Expr<E>, exit: Expr<E>,
                                pre: seq<Stmt<E>>, jump: Stmt<E>, rest: seq<Stmt<E>>)
    requires jump == Break || jump == Continue
    requires Exec(pre).signal == Done
    ensures Meaning(Scoped(form, enter, exit, pre + [jump] + rest))
         == Run(enter.effects + Exec(pre).trace + exit.effects, Done)
  {
    JumpSkipsRest(pre, jump, rest);
  }

  /** A `return` in a scope body skips the rest of the body and the exit
      expression, and leaves the enclosing function. */
  lemma ReturnSkipsExit<E>(form: Form, enter: Expr<E>, exit: Expr<E>,
                           pre: seq<Stmt<E>>, rest: seq<Stmt<E>>)
    requires Exec(pre).signal == Done
    ensures Meaning(Scoped(form, enter, exit, pre + [Return] + rest))
         == Run(enter.effects + Exec(pre).trace, Returned)
  {
    assert pre + [Return] + rest == pre + ([Return] + rest);
    ExecConcat(pre, [Return] + rest);
    assert ([Return] + rest)[0] == Return;
    assert Exec([Return] + rest) == Run([], Returned);
    assert Exec(pre).trace + [] == Exec(pre).trace;
    assert Exec(pre + [Return] + rest) == Run(Exec(pre).trace, Returned);
  }

  /** A scope is a barrier for `break` and `continue`: whatever its body does,
      the scope ends normally or by `return`, and the statements after it in
      the enclosing block run exactly when it ended normally. */
  lemma ScopeIsBarrier<E>(s: Stmt<E>, rest: seq<Stmt<E>>)
    requires s.Scoped?
    ensures Meaning(s).signal == Done || Meaning(s).signal == Returned
    ensures Exec([s] + rest)
         == if Meaning(s).signal == Done
            then Run(Meaning(s).trace + Exec(rest).trace, Exec(rest).signal)
            else Meaning(s)
  {
    assert ([s] + rest)[0] == s;
    assert ([s] + rest)[1..] == rest;
  }

  lemma {:induction false} CountConcat<E>(x: E, a: seq<E>, b: seq<E>)
    ensures Count(x, a + b) == Count(x, a) + Count(x, b)
    decreases |a|
  {
    if a == [] {
      assert a + b == b;
    } else {
      assert (a + b)[0] == a[0];
      assert (a + b)[1..] == a[1..] + b;
      CountConcat(x, a[1..], b);
    }
  }

  lemma {:induction false} CountAbsent<E>(x: E, s: seq<E>)
    requires x !in s
    ensures Count(x, s) == 0
    decreases |s|
  {
    if s != [] {
      assert s[0] in s;
      assert forall y :: y in s[1..] ==> y in s;
      CountAbsent(x, s[1..]);
    }
  }

  /** With an enter expression whose one effect is `x` and an exit expression
      whose one effect is `y`, both foreign to the body: `x` happens exactly
      once, first, before any effect of the body; `y` happens exactly once,
      last, unless the body returns, and then never. */
  lemma EnterAndExitOnce<E>(form: Form, enter: Expr<E>, exit: Expr<E>, body: seq<Stmt<E>>, x: E, y: E)
    requires enter.effects == [x] && exit.effects == [y] && x != y
    requires x !in Exec(body).trace && y !in Exec(body).trace
    ensures var t := Meaning(Scoped(form, enter, exit, body)).trace;
      && t[0] == x && Count(x, t) == 1
      && Count(y, t) == (if Exec(body).signal == Returned then 0 else 1)
      && (Exec(body).signal != Returned ==> t[|t| - 1] == y)
  {
    var b := Exec(body).trace;
    CountAbsent(x, b);
    CountAbsent(y, b);
    assert Count(x, [x]) == 1 && Count(y, [x]) == 0;
    assert Count(x, [y]) == 0 && Count(y, [y]) == 1;
    CountConcat(x, [x], b);
    CountConcat(y, [x], b);
    if Exec(body).signal != Returned {
      CountConcat(x, [x] + b, [y]);
      CountConcat(y, [x] + b, [y]);
    }
  }

  /** Running `p + q` when `p` completes normally: the effects of `p`, then
      those of `q`, ending as `q` ends. */
  lemma ExecConcatDone<E>(p: seq<Stmt<E>>, q: seq<Stmt<E>>)
    requires Exec(p).signal == Done
    ensures Exec(p + q) == Run(Exec(p).trace + Exec(q).trace, Exec(q).signal)
  {
    ExecConcat(p, q);
  }

  /** A scope whose body does not return, followed by `post`: the scope's
      enter, body and exit, then `post`. */
  lemma ScopeThenRest<E>(inner: Stmt<E>, post: seq<Stmt<E>>)
    requires inner.Scoped? && Exec(inner.body).signal != Returned
    ensures Exec([inner] + post)
         == Run(inner.enter.effects + Exec(inner.body).trace + inner.exit.effects + Exec(post).trace,
                Exec(post).signal)
  {
    ScopeIsBarrier(inner, post);
  }

  lemma Regroup<E>(p: seq<E>, e: seq<E>, b: seq<E>, x: seq<E>, q: seq<E>)
    ensures p + (e + b + x + q) == p + e + b + x + q
  {
  }

  lemma Enclose<E>(n: seq<E>, p: seq<E>, e: seq<E>, b: seq<E>, x: seq<E>, q: seq<E>, o: seq<E>)
    ensures n + (p + e + b + x + q) + o == n + p + e + b + x + q + o
  {
  }

  /** A block holding a scope that completes after statements `pre` that
      complete runs `pre`, then the scope's whole enter, body, exit sequence,
      then `post`. */
  lemma NestedBlock<E>(pre: seq<Stmt<E>>, inner: Stmt<E>, post: seq<Stmt<E>>)
    requires inner.Scoped?
    requires Exec(pre).signal == Done && Exec(inner.body).signal != Returned
    ensures Exec(pre + [inner] + post)
         == Run(Exec(pre).trace + inner.enter.effects + Exec(inner.body).trace
                + inner.exit.effects + Exec(post).trace, Exec(post).signal)
  {
    var r := [inner] + post;
    assert pre + [inner] + post == pre + r;
    ScopeThenRest(inner, post);
    ExecConcatDone(pre, r);
    Regroup(Exec(pre).trace, inner.enter.effects, Exec(inner.body).trace, inner.exit.effects, Exec(post).trace);
  }

  /** A scope nested in another scope's body, after statements `pre` and
      before statements `post`, runs its whole enter, body, exit sequence
      inside the outer one: the inner exit comes before the outer exit, in the
      reverse order of the enters. */
  lemma NestedUnwindLifo<E>(form: Form, enter: Expr<E>, exit: Expr<E>,
                            pre: seq<Stmt<E>>, inner: Stmt<E>, post: seq<Stmt<E>>)
    requires inner.Scoped?
    requires Exec(pre).signal == Done
    requires Exec(inner.body).signal != Returned && Exec(post).signal != Returned
    ensures Meaning(Scoped(form, enter, exit, pre + [inner] + post))
         == Run(enter.effects + Exec(pre).trace
                + inner.enter.effects + Exec(inner.body).trace + inner.exit.effects
                + Exec(post).trace + exit.effects, Done)
  {
    var body := pre + [inner] + post;
    NestedBlock(pre, inner, post);
    assert Meaning(Scoped(form, enter, exit, body)) == Run(enter.effects + Exec(body).trace + exit.effects, Done);
    Enclose(enter.effects, Exec(pre).trace, inner.enter.effects, Exec(inner.body).trace,
            inner.exit.effects, Exec(post).trace, exit.effects);
  }

  /** A `return` in the body of a nested scope skips the exit expressions of
      the inner and of the outer scope alike. */
  lemma NestedReturnSkipsAllExits<E>(form: Form, enter: Expr<E>, exit: Expr<E>,
                                     pre: seq<Stmt<E>>, inner: Stmt<E>, post: seq<Stmt<E>>)
    requires inner.Scoped?
    requires Exec(pre).signal == Done
    requires Exec(inner.body).signal == Returned
    ensures Meaning(Scoped(form, enter, exit, pre + [inner] + post))
         == Run(enter.effects + Exec(pre).trace + inner.enter.effects + Exec(inner.body).trace, Returned)
  {
    var r := [inner] + post;
    var body := pre + [inner] + post;
    assert body == pre + r;
    assert Exec(r) == Run(inner.enter.effects + Exec(inner.body).trace, Returned) by {
      ScopeIsBarrier(inner, post);
    }
    ExecConcatDone(pre, r);
    assert Meaning(Scoped(form, enter, exit, body)) == Run(enter.effects + Exec(body).trace, Returned);
    var n, p, e, b := enter.effects, Exec(pre).trace, inner.enter.effects, Exec(inner.body).trace;
    assert n + (p + (e + b)) == n + p + e + b;
  }

  /** Two scopes chained in front of one shared body, as in
      `SE350_USING(d4, r4) SE350_USING(d5, r5) { body }`: both enters before
      the body, then the exits in reverse order; a `return` skips both. */
  lemma ChainedScopes<E>(outer: Stmt<E>, inner: Stmt<E>)
    requires outer.Scoped? && inner.Scoped? && outer.body == [inner]
    ensures var r := Exec(inner.body);
      Meaning(outer) ==
        if r.signal == Returned
        then Run(outer.enter.effects + inner.enter.effects + r.trace, Returned)
        else Run(outer.enter.effects + inner.enter.effects + r.trace
                 + inner.exit.effects + outer.exit.effects, Done)
  {
    ScopeIsBarrier(inner, []);
    var r := Exec(inner.body);
    var e1, e2, x1, x2 := outer.enter.effects, inner.enter.effects, outer.exit.effects, inner.exit.effects;
    if r.signal == Returned {
      assert Exec(outer.body) == Run(e2 + r.trace, Returned);
      assert e1 + (e2 + r.trace) == e1 + e2 + r.trace;
    } else {
      assert Exec(outer.body) == Run(e2 + r.trace + x2, Done);
      assert e1 + (e2 + r.trace + x2) + x1 == e1 + e2 + r.trace + x2 + x1;
    }
  }

  /** SE350_SCOPE_EXIT(after) runs like SE350_SCOPE with an enter expression
      that has no effect: the body, then `after` unless the body returned. */
  lemma ScopeExitRunsBodyThenExit<E>(exit: Expr<E>, body: seq<Stmt<E>>, before: Expr<E>)
    requires before.effects == []
    ensures Meaning(ScopeExit(exit, body)) == Meaning(Scoped(PairedAction, before, exit, body))
    ensures Meaning(ScopeExit(exit, body))
         == if Exec(body).signal == Returned then Run(Exec(body).trace, Returned)
            else Run(Exec(body).trace + exit.effects, Done)
  {
    assert [] + Exec(body).trace == Exec(body).trace;
  }
}
