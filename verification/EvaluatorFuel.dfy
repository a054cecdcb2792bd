/** More fuel never changes the result of an evaluation that has ended. */
module EvaluatorFuel {
  import opened Lisp
  import opened Evaluator

  /** `b` is what `a` becomes with more fuel. */
  predicate Settles<N(==), W(==), V(==)>(a: Out<N, W, V>, b: Out<N, W, V>) {
    a.OutOfFuel? || a == b
  }

  lemma {:induction false} EvalSettles<N, W>(h: Host<N, W>, n: nat, e: Exp<N>, env: Env<N>, w: W)
    ensures Settles(Eval(h, n, e, env, w), Eval(h, n + 1, e, env, w))
    decreases n, 0, 0
  {
    if n > 0 && e.List? && e.items != [] {
      if e.items[0].Symbol? {
        FormSettles(h, n - 1, e.items[0].name, e.items[1..], env, w);
      } else {
        CallSettles(h, n - 1, e.items[0], e.items[1..], env, w);
      }
    }
  }

  lemma {:induction false} FormSettles<N, W>(h: Host<N, W>, n: nat, s: string, args: seq<Exp<N>>, env: Env<N>, w: W)
    ensures Settles(EvalForm(h, n, s, args, env, w), EvalForm(h, n + 1, s, args, env, w))
    decreases n, 3, 0
  {
    if s == "if" { IfSettles(h, n, args, env, w); }
    else if s == "def" { DefSettles(h, n, args, env, w); }
    else if s == "fn" { }
    else if s == "sys" { SysSettles(h, n, args, env, w); }
    else if s == "quote" { }
    else if s == "and" { AndSettles(h, n, args, env, w); }
    else if s == "or" { OrSettles(h, n, args, env, w); }
    else if s == "for" { if |args| >= 2 { LoopSettles(h, n, args[0], args[1], env, w); } }
    else if s == "append" { AppendSettles(h, n, args, env, w); }
    else if s == "pop" { }
    else if s == "mset" { MsetSettles(h, n, args, env, w); }
    else if s == "mdel" { MdelSettles(h, n, args, env, w); }
    else if s == "do" { DoSettles(h, n, args, List([]), env, w); }
    else if s == "error" { ErrorSettles(h, n, args, env, w); }
    else { CallSettles(h, n, Symbol(s), args, env, w); }
  }

  lemma {:induction false} AllSettles<N, W>(h: Host<N, W>, n: nat, args: seq<Exp<N>>, env: Env<N>, w: W)
    ensures Settles(EvalAll(h, n, args, env, w), EvalAll(h, n + 1, args, env, w))
    decreases n, 1, |args|
  {
    if args == [] {
    } else {
      EvalSettles(h, n, args[0], env, w);
      var first := Eval(h, n, args[0], env, w);
      if first.Good() {
        AllSettles(h, n, args[1..], first.env, first.world);
      }
    }
  }

  lemma {:induction false} IfSettles<N, W>(h: Host<N, W>, n: nat, args: seq<Exp<N>>, env: Env<N>, w: W)
    ensures Settles(EvalIf(h, n, args, env, w), EvalIf(h, n + 1, args, env, w))
    decreases n, 2, 0
  {
    if args != [] {
      EvalSettles(h, n, args[0], env, w);
      var test := Eval(h, n, args[0], env, w);
      if test.Good() && test.result.value.Bool? {
        var idx := if test.result.value.b then 1 else 2;
        if idx < |args| {
          EvalSettles(h, n, args[idx], test.env, test.world);
        }
      }
    }
  }

  lemma {:induction false} DefSettles<N, W>(h: Host<N, W>, n: nat, args: seq<Exp<N>>, env: Env<N>, w: W)
    ensures Settles(EvalDef(h, n, args, env, w), EvalDef(h, n + 1, args, env, w))
    decreases n, 2, 0
  {
    if |args| == 2 {
      EvalSettles(h, n, args[1], env, w);
    }
  }

  lemma {:induction false} SysSettles<N, W>(h: Host<N, W>, n: nat, args: seq<Exp<N>>, env: Env<N>, w: W)
    ensures Settles(EvalSys(h, n, args, env, w), EvalSys(h, n + 1, args, env, w))
    decreases n, 2, 0
  {
    AllSettles(h, n, args, env, w);
  }

  lemma {:induction false} AndSettles<N, W>(h: Host<N, W>, n: nat, args: seq<Exp<N>>, env: Env<N>, w: W)
    ensures Settles(EvalAnd(h, n, args, env, w), EvalAnd(h, n + 1, args, env, w))
    decreases n, 2, |args|
  {
    if args == [] {
    } else {
      EvalSettles(h, n, args[0], env, w);
      var first := Eval(h, n, args[0], env, w);
      if first.Good() {
        AndSettles(h, n, args[1..], first.env, first.world);
      }
    }
  }

  lemma {:induction false} OrSettles<N, W>(h: Host<N, W>, n: nat, args: seq<Exp<N>>, env: Env<N>, w: W)
    ensures Settles(EvalOr(h, n, args, env, w), EvalOr(h, n + 1, args, env, w))
    decreases n, 2, |args|
  {
    if args == [] {
    } else {
      EvalSettles(h, n, args[0], env, w);
      var first := Eval(h, n, args[0], env, w);
      if first.Good() {
        OrSettles(h, n, args[1..], first.env, first.world);
      }
    }
  }

  lemma {:induction false} LoopSettles<N, W>(h: Host<N, W>, n: nat, cond: Exp<N>, body: Exp<N>, env: Env<N>, w: W)
    ensures Settles(Loop(h, n, cond, body, env, w), Loop(h, n + 1, cond, body, env, w))
    decreases n, 2, 0
  {
    EvalSettles(h, n, cond, env, w);
    var test := Eval(h, n, cond, env, w);
    if test.Good() && test.result.value.Bool? && test.result.value.b {
      EvalSettles(h, n, body, test.env, test.world);
      var round := Eval(h, n, body, test.env, test.world);
      if round.Good() && n > 0 {
        LoopSettles(h, n - 1, cond, body, round.env, round.world);
      }
    }
  }

  lemma {:induction false} AppendSettles<N, W>(h: Host<N, W>, n: nat, args: seq<Exp<N>>, env: Env<N>, w: W)
    ensures Settles(EvalAppend(h, n, args, env, w), EvalAppend(h, n + 1, args, env, w))
    decreases n, 2, 0
  {
    if |args| >= 2 {
      EvalSettles(h, n, args[1], env, w);
    }
  }

  lemma {:induction false} MsetSettles<N, W>(h: Host<N, W>, n: nat, args: seq<Exp<N>>, env: Env<N>, w: W)
    ensures Settles(EvalMset(h, n, args, env, w), EvalMset(h, n + 1, args, env, w))
    decreases n, 2, 0
  {
    if |args| >= 3 {
      EvalSettles(h, n, args[1], env, w);
      var k := Eval(h, n, args[1], env, w);
      if k.Good() {
        EvalSettles(h, n, args[2], k.env, k.world);
      }
    }
  }

  lemma {:induction false} MdelSettles<N, W>(h: Host<N, W>, n: nat, args: seq<Exp<N>>, env: Env<N>, w: W)
    ensures Settles(EvalMdel(h, n, args, env, w), EvalMdel(h, n + 1, args, env, w))
    decreases n, 2, 0
  {
    if |args| >= 2 {
      EvalSettles(h, n, args[1], env, w);
    }
  }

  lemma {:induction false} DoSettles<N, W>(h: Host<N, W>, n: nat, args: seq<Exp<N>>, last: Exp<N>, env: Env<N>, w: W)
    ensures Settles(EvalDo(h, n, args, last, env, w), EvalDo(h, n + 1, args, last, env, w))
    decreases n, 2, |args|
  {
    if args == [] {
    } else {
      EvalSettles(h, n, args[0], env, w);
      var first := Eval(h, n, args[0], env, w);
      if first.Good() {
        DoSettles(h, n, args[1..], first.result.value, first.env, first.world);
      }
    }
  }

  lemma {:induction false} ErrorSettles<N, W>(h: Host<N, W>, n: nat, args: seq<Exp<N>>, env: Env<N>, w: W)
    ensures Settles(EvalError(h, n, args, env, w), EvalError(h, n + 1, args, env, w))
    decreases n, 2, 0
  {
    if args != [] {
      EvalSettles(h, n, args[0], env, w);
      var message := Eval(h, n, args[0], env, w);
      if message.Good() {
        var handler := Handler(message.env, message.result.value);
        if handler.Some? {
          EvalSettles(h, n, handler.value.0, handler.value.1, message.world);
        }
      }
    }
  }

  lemma {:induction false} CallSettles<N, W>(h: Host<N, W>, n: nat, head: Exp<N>, args: seq<Exp<N>>, env: Env<N>, w: W)
    ensures Settles(EvalCall(h, n, head, args, env, w), EvalCall(h, n + 1, head, args, env, w))
    decreases n, 2, 0
  {
    EvalSettles(h, n, head, env, w);
    var f := Eval(h, n, head, env, w);
    if f.Good() {
      AllSettles(h, n, args, f.env, f.world);
      var values := EvalAll(h, n, args, f.env, f.world);
      if values.Good() && f.result.value.Lambda? {
        BodySettles(h, n, f.result.value, values.result.value, values.env, values.world);
      }
    }
  }

  lemma {:induction false} BodySettles<N, W>(h: Host<N, W>, n: nat, f: Exp<N>, values: seq<Exp<N>>, env: Env<N>, w: W)
    requires f.Lambda?
    ensures Settles(EvalBody(h, n, f, values, env, w), EvalBody(h, n + 1, f, values, env, w))
    decreases n, 1, 0
  {
    var inner := EnvForLambda(f.params, values, env + f.captured);
    if inner.Ok? {
      EvalSettles(h, n, f.body, inner.value, w);
    }
  }

  /** An evaluation that has ended stays the same with any amount of fuel on top. */
  lemma {:induction false} MoreFuel<N, W>(h: Host<N, W>, n: nat, m: nat, e: Exp<N>, env: Env<N>, w: W)
    requires n <= m && Eval(h, n, e, env, w).Out?
    ensures Eval(h, m, e, env, w) == Eval(h, n, e, env, w)
    decreases m - n
  {
    if n == m {
    } else {
      EvalSettles(h, n, e, env, w);
      MoreFuel(h, n + 1, m, e, env, w);
    }
  }
}
