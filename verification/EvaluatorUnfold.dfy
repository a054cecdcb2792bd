/** Loops and the logical forms mean what their unfoldings into `if` and `do` mean. */
module EvaluatorUnfold {
  import opened Lisp
  import opened Evaluator
  import opened EvaluatorFuel

  /** Both ended with the same value, environment and world, or both failed in the same environment and world. */
  ghost predicate Same<N, W>(a: Out<N, W, Exp<N>>, b: Out<N, W, Exp<N>>) {
    && a.Out? && b.Out? && a.env == b.env && a.world == b.world
    && if a.result.Ok? then a.result == b.result else b.result.Err?
  }

  /** Whenever `e` ends, so does `e'`, in the same way up to the text of errors. */
  ghost predicate Covers<N(!new), W(!new)>(h: Host<N, W>, e': Exp<N>, e: Exp<N>) {
    forall n: nat, env: Env<N>, w: W :: Eval(h, n, e, env, w).Out? ==>
      exists m: nat :: Same(Eval(h, n, e, env, w), Eval(h, m, e', env, w))
  }

  ghost predicate Equivalent<N(!new), W(!new)>(h: Host<N, W>, e: Exp<N>, e': Exp<N>) {
    Covers(h, e', e) && Covers(h, e, e')
  }

  function Form<N>(s: string, args: seq<Exp<N>>): Exp<N> {
    List([Symbol(s)] + args)
  }

  lemma EvalOfForm<N, W>(h: Host<N, W>, n: nat, s: string, args: seq<Exp<N>>, env: Env<N>, w: W)
    ensures Eval(h, n + 1, Form(s, args), env, w) == EvalForm(h, n, s, args, env, w)
  {
    assert ([Symbol(s)] + args)[1..] == args;
  }

  /** A conditional with both branches. */
  lemma IfMeans<N, W>(h: Host<N, W>, n: nat, c: Exp<N>, yes: Exp<N>, no: Exp<N>, env: Env<N>, w: W)
    ensures var test := Eval(h, n, c, env, w);
      var r := Eval(h, n + 1, Form("if", [c, yes, no]), env, w);
      if !test.Good() then r == test
      else if !test.result.value.Bool? then r.Out? && r.result.Err? && r.env == test.env && r.world == test.world
      else r == Eval(h, n, if test.result.value.b then yes else no, test.env, test.world)
  {
    EvalOfForm(h, n, "if", [c, yes, no], env, w);
    assert EvalForm(h, n, "if", [c, yes, no], env, w) == EvalIf(h, n, [c, yes, no], env, w);
  }

  lemma AndMeans<N, W>(h: Host<N, W>, n: nat, a: Exp<N>, r: seq<Exp<N>>, env: Env<N>, w: W)
    ensures Eval(h, n + 1, Form("and", r), env, w) == EvalAnd(h, n, r, env, w)
    ensures var first := Eval(h, n, a, env, w);
      var out := EvalAnd(h, n, [a] + r, env, w);
      if !first.Good() then out == first
      else if !first.result.value.Bool? then out.Out? && out.result.Err? && out.env == first.env && out.world == first.world
      else out == if first.result.value.b then EvalAnd(h, n, r, first.env, first.world) else first
  {
    EvalOfForm(h, n, "and", r, env, w);
    assert ([a] + r)[1..] == r;
  }

  lemma OrMeans<N, W>(h: Host<N, W>, n: nat, a: Exp<N>, r: seq<Exp<N>>, env: Env<N>, w: W)
    ensures Eval(h, n + 1, Form("or", r), env, w) == EvalOr(h, n, r, env, w)
    ensures var first := Eval(h, n, a, env, w);
      var out := EvalOr(h, n, [a] + r, env, w);
      if !first.Good() then out == first
      else if !first.result.value.Bool? then out.Out? && out.result.Err? && out.env == first.env && out.world == first.world
      else out == if first.result.value.b then first else EvalOr(h, n, r, first.env, first.world)
  {
    EvalOfForm(h, n, "or", r, env, w);
    assert ([a] + r)[1..] == r;
  }

  lemma ForMeans<N, W>(h: Host<N, W>, n: nat, c: Exp<N>, b: Exp<N>, env: Env<N>, w: W)
    ensures Eval(h, n + 1, ForForm(c, b), env, w) == Loop(h, n, c, b, env, w)
  {
    EvalOfForm(h, n, "for", [c, b], env, w);
    assert EvalForm(h, n, "for", [c, b], env, w) == EvalForLoop(h, n, [c, b], env, w);
  }

  // ----- and -----

  /** `(if a (and r...) false)` */
  function AndUnfolded<N>(a: Exp<N>, r: seq<Exp<N>>): Exp<N> {
    Form("if", [a, Form("and", r), Bool(false)])
  }

  lemma AndStep<N, W>(h: Host<N, W>, n: nat, a: Exp<N>, r: seq<Exp<N>>, env: Env<N>, w: W)
    requires Eval(h, n + 1, Form("and", [a] + r), env, w).Out?
    ensures Same(Eval(h, n + 1, Form("and", [a] + r), env, w), Eval(h, n + 2, AndUnfolded(a, r), env, w))
  {
    AndMeans(h, n, a, [a] + r, env, w);
    AndMeans(h, n, a, r, env, w);
    IfMeans(h, n + 1, a, Form("and", r), Bool(false), env, w);
    EvalSettles(h, n, a, env, w);
    var first := Eval(h, n, a, env, w);
    if first.Good() {
      AndMeans(h, n, a, r, first.env, first.world);
    }
  }

  lemma AndStepBack<N, W>(h: Host<N, W>, n: nat, a: Exp<N>, r: seq<Exp<N>>, env: Env<N>, w: W)
    requires Eval(h, n + 1, AndUnfolded(a, r), env, w).Out?
    ensures Same(Eval(h, n + 1, AndUnfolded(a, r), env, w), Eval(h, n + 1, Form("and", [a] + r), env, w))
  {
    AndMeans(h, n, a, [a] + r, env, w);
    AndMeans(h, n, a, r, env, w);
    IfMeans(h, n, a, Form("and", r), Bool(false), env, w);
    var first := Eval(h, n, a, env, w);
    if first.Good() && n > 0 {
      AndMeans(h, n - 1, a, r, first.env, first.world);
      AndSettles(h, n - 1, r, first.env, first.world);
    }
  }

  lemma AndUnfolds<N(!new), W(!new)>(h: Host<N, W>, a: Exp<N>, r: seq<Exp<N>>)
    ensures Equivalent(h, Form("and", [a] + r), AndUnfolded(a, r))
  {
    var e, e' := Form("and", [a] + r), AndUnfolded(a, r);
    forall n: nat, env: Env<N>, w: W | Eval(h, n, e, env, w).Out?
      ensures exists m: nat :: Same(Eval(h, n, e, env, w), Eval(h, m, e', env, w))
    {
      AndStep(h, n - 1, a, r, env, w);
    }
    forall n: nat, env: Env<N>, w: W | Eval(h, n, e', env, w).Out?
      ensures exists m: nat :: Same(Eval(h, n, e', env, w), Eval(h, m, e, env, w))
    {
      AndStepBack(h, n - 1, a, r, env, w);
    }
  }

  // ----- or -----

  /** `(if a true (or r...))` */
  function OrUnfolded<N>(a: Exp<N>, r: seq<Exp<N>>): Exp<N> {
    Form("if", [a, Bool(true), Form("or", r)])
  }

  lemma OrStep<N, W>(h: Host<N, W>, n: nat, a: Exp<N>, r: seq<Exp<N>>, env: Env<N>, w: W)
    requires Eval(h, n + 1, Form("or", [a] + r), env, w).Out?
    ensures Same(Eval(h, n + 1, Form("or", [a] + r), env, w), Eval(h, n + 2, OrUnfolded(a, r), env, w))
  {
    OrMeans(h, n, a, [a] + r, env, w);
    OrMeans(h, n, a, r, env, w);
    IfMeans(h, n + 1, a, Bool(true), Form("or", r), env, w);
    EvalSettles(h, n, a, env, w);
    var first := Eval(h, n, a, env, w);
    if first.Good() {
      OrMeans(h, n, a, r, first.env, first.world);
    }
  }

  lemma OrStepBack<N, W>(h: Host<N, W>, n: nat, a: Exp<N>, r: seq<Exp<N>>, env: Env<N>, w: W)
    requires Eval(h, n + 1, OrUnfolded(a, r), env, w).Out?
    ensures Same(Eval(h, n + 1, OrUnfolded(a, r), env, w), Eval(h, n + 1, Form("or", [a] + r), env, w))
  {
    OrMeans(h, n, a, [a] + r, env, w);
    OrMeans(h, n, a, r, env, w);
    IfMeans(h, n, a, Bool(true), Form("or", r), env, w);
    var first := Eval(h, n, a, env, w);
    if first.Good() && n > 0 {
      OrMeans(h, n - 1, a, r, first.env, first.world);
      OrSettles(h, n - 1, r, first.env, first.world);
    }
  }

  lemma OrUnfolds<N(!new), W(!new)>(h: Host<N, W>, a: Exp<N>, r: seq<Exp<N>>)
    ensures Equivalent(h, Form("or", [a] + r), OrUnfolded(a, r))
  {
    var e, e' := Form("or", [a] + r), OrUnfolded(a, r);
    forall n: nat, env: Env<N>, w: W | Eval(h, n, e, env, w).Out?
      ensures exists m: nat :: Same(Eval(h, n, e, env, w), Eval(h, m, e', env, w))
    {
      OrStep(h, n - 1, a, r, env, w);
    }
    forall n: nat, env: Env<N>, w: W | Eval(h, n, e', env, w).Out?
      ensures exists m: nat :: Same(Eval(h, n, e', env, w), Eval(h, m, e, env, w))
    {
      OrStepBack(h, n - 1, a, r, env, w);
    }
  }

  // ----- for -----

  function ForForm<N>(c: Exp<N>, b: Exp<N>): Exp<N> {
    Form("for", [c, b])
  }

  /** `(do b (for c b))` */
  function OneRound<N>(c: Exp<N>, b: Exp<N>): Exp<N> {
    Form("do", [b, ForForm(c, b)])
  }

  /** `(if c (do b (for c b)) false)` */
  function ForUnfolded<N>(c: Exp<N>, b: Exp<N>): Exp<N> {
    Form("if", [c, OneRound(c, b), Bool(false)])
  }

  /** The body and then the rest of the loop. */
  lemma RoundMeans<N, W>(h: Host<N, W>, n: nat, c: Exp<N>, b: Exp<N>, env: Env<N>, w: W)
    ensures var round := Eval(h, n + 1, b, env, w);
      Eval(h, n + 2, OneRound(c, b), env, w)
      == if round.Good() then Loop(h, n, c, b, round.env, round.world) else round
  {
    var loop := ForForm(c, b);
    EvalOfForm(h, n + 1, "do", [b, loop], env, w);
    assert EvalForm(h, n + 1, "do", [b, loop], env, w) == EvalDo(h, n + 1, [b, loop], List([]), env, w);
    assert [b, loop][1..] == [loop] && [loop][1..] == [];
    var round := Eval(h, n + 1, b, env, w);
    if round.Good() {
      ForMeans(h, n, c, b, round.env, round.world);
      DoLast(h, n + 1, loop, round.result.value, round.env, round.world);
    }
  }

  lemma DoLast<N, W>(h: Host<N, W>, n: nat, e: Exp<N>, last: Exp<N>, env: Env<N>, w: W)
    ensures EvalDo(h, n, [e], last, env, w) == Eval(h, n, e, env, w)
  {
    assert [e][1..] == [];
  }

  lemma ForStep<N, W>(h: Host<N, W>, n: nat, c: Exp<N>, b: Exp<N>, env: Env<N>, w: W)
    requires Eval(h, n + 1, ForForm(c, b), env, w).Out?
    ensures Same(Eval(h, n + 1, ForForm(c, b), env, w), Eval(h, n + 2, ForUnfolded(c, b), env, w))
  {
    ForMeans(h, n, c, b, env, w);
    IfMeans(h, n + 1, c, OneRound(c, b), Bool(false), env, w);
    EvalSettles(h, n, c, env, w);
    var test := Eval(h, n, c, env, w);
    if test.Good() && n > 0 {
      RoundMeans(h, n - 1, c, b, test.env, test.world);
    }
  }

  lemma ForStepBack<N, W>(h: Host<N, W>, n: nat, c: Exp<N>, b: Exp<N>, env: Env<N>, w: W)
    requires Eval(h, n + 1, ForUnfolded(c, b), env, w).Out?
    ensures Same(Eval(h, n + 1, ForUnfolded(c, b), env, w), Eval(h, n + 1, ForForm(c, b), env, w))
  {
    ForMeans(h, n, c, b, env, w);
    IfMeans(h, n, c, OneRound(c, b), Bool(false), env, w);
    var test := Eval(h, n, c, env, w);
    if test.Good() && test.result.value.Bool? && test.result.value.b {
      ShortRound(h, n, c, b, test.env, test.world);
      RoundMeans(h, n - 2, c, b, test.env, test.world);
      EvalSettles(h, n - 1, b, test.env, test.world);
      var round := Eval(h, n - 1, b, test.env, test.world);
      if round.Good() {
        LoopSettles(h, n - 2, c, b, round.env, round.world);
      }
    }
  }

  /** With less than two units of fuel a round does not end. */
  lemma ShortRound<N, W>(h: Host<N, W>, n: nat, c: Exp<N>, b: Exp<N>, env: Env<N>, w: W)
    requires Eval(h, n, OneRound(c, b), env, w).Out?
    ensures n >= 2
  {
    if n == 1 {
      EvalOfForm(h, 0, "do", [b, ForForm(c, b)], env, w);
    }
  }

  lemma ForUnfolds<N(!new), W(!new)>(h: Host<N, W>, c: Exp<N>, b: Exp<N>)
    ensures Equivalent(h, ForForm(c, b), ForUnfolded(c, b))
  {
    var e, e' := ForForm(c, b), ForUnfolded(c, b);
    forall n: nat, env: Env<N>, w: W | Eval(h, n, e, env, w).Out?
      ensures exists m: nat :: Same(Eval(h, n, e, env, w), Eval(h, m, e', env, w))
    {
      ForStep(h, n - 1, c, b, env, w);
    }
    forall n: nat, env: Env<N>, w: W | Eval(h, n, e', env, w).Out?
      ensures exists m: nat :: Same(Eval(h, n, e', env, w), Eval(h, m, e, env, w))
    {
      ForStepBack(h, n - 1, c, b, env, w);
    }
  }
}
