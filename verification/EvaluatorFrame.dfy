/** What an evaluation can do to the environment of its caller. */
module EvaluatorFrame {
  import opened Lisp
  import opened Evaluator

  predicate IsMutator(s: string) {
    s == "def" || s == "append" || s == "pop" || s == "mset" || s == "mdel"
  }

  /** The variables named by mutating forms, outside the bodies of closures and quoted data. */
  function Targets<N>(e: Exp<N>): set<string>
    decreases e, 0
  {
    if !e.List? || e.items == [] then {}
    else
      var head := e.items[0];
      if head == Symbol("quote") || head == Symbol("fn") then {}
      else if head.Symbol? && IsMutator(head.name) && |e.items| > 1 && e.items[1].Symbol? then
        {e.items[1].name} + TargetsOfAll(e.items)
      else TargetsOfAll(e.items)
  }

  function TargetsOfAll<N>(items: seq<Exp<N>>): set<string>
    decreases items
  {
    if items == [] then {} else Targets(items[0]) + TargetsOfAll(items[1..])
  }

  lemma {:induction false} TargetsOfMember<N>(items: seq<Exp<N>>, i: nat)
    requires i < |items|
    ensures Targets(items[i]) <= TargetsOfAll(items)
  {
    if i == 0 {
    } else {
      TargetsOfMember(items[1..], i - 1);
    }
  }

  /** No binding disappears, and only variables among `targets` change or appear. */
  ghost predicate Within<N>(targets: set<string>, env: Env<N>, env': Env<N>) {
    && env.Keys <= env'.Keys
    && forall k :: k in env' && k !in targets ==> k in env && env'[k] == env[k]
  }

  ghost predicate Frames<N, W, V>(targets: set<string>, env: Env<N>, out: Out<N, W, V>) {
    out.Out? ==> Within(targets, env, out.env)
  }

  /** Two evaluations in a row. */
  lemma Chain<N, W, V>(targets: set<string>, first: set<string>, second: set<string>,
                       env: Env<N>, env1: Env<N>, out: Out<N, W, V>)
    requires first <= targets && second <= targets
    requires Within(first, env, env1) && Frames(second, env1, out)
    ensures Frames(targets, env, out)
  {
    if out.Out? {
      forall k | k in out.env && k !in targets ensures k in env && out.env[k] == env[k] {
        assert k in env1 && env1[k] == out.env[k];
      }
    }
  }

  // ----- The frame, form by form -----

  lemma {:induction false} EvalFrame<N, W>(h: Host<N, W>, n: nat, e: Exp<N>, env: Env<N>, w: W)
    ensures Frames(Targets(e), env, Eval(h, n, e, env, w))
    decreases n, 0, 0
  {
    if n > 0 && e.List? && e.items != [] {
      var args := e.items[1..];
      if e.items[0].Symbol? {
        FormFrame(h, n - 1, e.items[0].name, args, env, w);
        assert e.items[0] == Symbol(e.items[0].name);
        assert e.items == [e.items[0]] + args;
      } else {
        CallFrame(h, n - 1, e.items[0], args, env, w);
      }
    }
  }

  /** What a list with head `s` may change. */
  function FormTargets<N>(s: string, args: seq<Exp<N>>): set<string> {
    if s == "quote" || s == "fn" then {}
    else if IsMutator(s) && args != [] && args[0].Symbol? then {args[0].name} + TargetsOfAll(args)
    else TargetsOfAll(args)
  }

  lemma {:induction false} FormFrame<N, W>(h: Host<N, W>, n: nat, s: string, args: seq<Exp<N>>, env: Env<N>, w: W)
    ensures Frames(FormTargets(s, args), env, EvalForm(h, n, s, args, env, w))
    decreases n, 3, 0
  {
    if s == "if" { IfFrame(h, n, args, env, w); }
    else if s == "def" { DefFrame(h, n, args, env, w); }
    else if s == "fn" { }
    else if s == "sys" { SysFrame(h, n, args, env, w); }
    else if s == "quote" { }
    else if s == "and" { AndFrame(h, n, args, env, w); }
    else if s == "or" { OrFrame(h, n, args, env, w); }
    else if s == "for" { ForFrame(h, n, args, env, w); }
    else if s == "append" { AppendFrame(h, n, args, env, w); }
    else if s == "pop" { PopFrame(args, env, w); }
    else if s == "mset" { MsetFrame(h, n, args, env, w); }
    else if s == "mdel" { MdelFrame(h, n, args, env, w); }
    else if s == "do" { DoFrame(h, n, args, List([]), env, w); }
    else if s == "error" { ErrorFrame(h, n, args, env, w); }
    else { CallFrame(h, n, Symbol(s), args, env, w); }
  }

  lemma {:induction false} AllFrame<N, W>(h: Host<N, W>, n: nat, args: seq<Exp<N>>, env: Env<N>, w: W)
    ensures Frames(TargetsOfAll(args), env, EvalAll(h, n, args, env, w))
    decreases n, 1, |args|
  {
    if args == [] {
    } else {
      EvalFrame(h, n, args[0], env, w);
      var first := Eval(h, n, args[0], env, w);
      if first.Good() {
        var rest := EvalAll(h, n, args[1..], first.env, first.world);
        AllFrame(h, n, args[1..], first.env, first.world);
        Chain(TargetsOfAll(args), Targets(args[0]), TargetsOfAll(args[1..]), env, first.env, rest);
      }
    }
  }

  lemma {:induction false} SysFrame<N, W>(h: Host<N, W>, n: nat, args: seq<Exp<N>>, env: Env<N>, w: W)
    ensures Frames(TargetsOfAll(args), env, EvalSys(h, n, args, env, w))
    decreases n, 2, 0
  {
    AllFrame(h, n, args, env, w);
  }

  lemma {:induction false} ForFrame<N, W>(h: Host<N, W>, n: nat, args: seq<Exp<N>>, env: Env<N>, w: W)
    ensures Frames(TargetsOfAll(args), env, EvalForLoop(h, n, args, env, w))
    decreases n, 2, 1
  {
    if |args| >= 2 {
      TargetsOfMember(args, 0);
      TargetsOfMember(args, 1);
      LoopFrame(h, n, args[0], args[1], env, w, TargetsOfAll(args));
    }
  }

  lemma PopFrame<N, W>(args: seq<Exp<N>>, env: Env<N>, w: W)
    ensures Frames(FormTargets("pop", args), env, EvalPop(args, env, w))
  {
  }

  lemma {:induction false} IfFrame<N, W>(h: Host<N, W>, n: nat, args: seq<Exp<N>>, env: Env<N>, w: W)
    ensures Frames(TargetsOfAll(args), env, EvalIf(h, n, args, env, w))
    decreases n, 2, 0
  {
    if args != [] {
      EvalFrame(h, n, args[0], env, w);
      TargetsOfMember(args, 0);
      var test := Eval(h, n, args[0], env, w);
      if test.Good() && test.result.value.Bool? {
        var idx := if test.result.value.b then 1 else 2;
        if idx < |args| {
          TargetsOfMember(args, idx);
          EvalFrame(h, n, args[idx], test.env, test.world);
          Chain(TargetsOfAll(args), Targets(args[0]), Targets(args[idx]), env, test.env,
                Eval(h, n, args[idx], test.env, test.world));
        }
      }
    }
  }

  lemma {:induction false} DefFrame<N, W>(h: Host<N, W>, n: nat, args: seq<Exp<N>>, env: Env<N>, w: W)
    ensures Frames(FormTargets("def", args), env, EvalDef(h, n, args, env, w))
    decreases n, 2, 0
  {
    if |args| >= 2 && args[0].Symbol? {
      EvalFrame(h, n, args[1], env, w);
      TargetsOfMember(args, 1);
    }
  }

  lemma {:induction false} AppendFrame<N, W>(h: Host<N, W>, n: nat, args: seq<Exp<N>>, env: Env<N>, w: W)
    ensures Frames(FormTargets("append", args), env, EvalAppend(h, n, args, env, w))
    decreases n, 2, 0
  {
    if |args| >= 2 && args[0].Symbol? {
      EvalFrame(h, n, args[1], env, w);
      TargetsOfMember(args, 1);
    }
  }

  lemma {:induction false} MdelFrame<N, W>(h: Host<N, W>, n: nat, args: seq<Exp<N>>, env: Env<N>, w: W)
    ensures Frames(FormTargets("mdel", args), env, EvalMdel(h, n, args, env, w))
    decreases n, 2, 0
  {
    if |args| >= 2 && args[0].Symbol? {
      EvalFrame(h, n, args[1], env, w);
      TargetsOfMember(args, 1);
    }
  }

  lemma {:induction false} MsetFrame<N, W>(h: Host<N, W>, n: nat, args: seq<Exp<N>>, env: Env<N>, w: W)
    ensures Frames(FormTargets("mset", args), env, EvalMset(h, n, args, env, w))
    decreases n, 2, 0
  {
    if |args| >= 3 && args[0].Symbol? {
      TargetsOfMember(args, 1);
      TargetsOfMember(args, 2);
      EvalFrame(h, n, args[1], env, w);
      var k := Eval(h, n, args[1], env, w);
      if k.Good() {
        EvalFrame(h, n, args[2], k.env, k.world);
        Chain(TargetsOfAll(args), Targets(args[1]), Targets(args[2]), env, k.env, Eval(h, n, args[2], k.env, k.world));
      }
    }
  }

  lemma {:induction false} AndFrame<N, W>(h: Host<N, W>, n: nat, args: seq<Exp<N>>, env: Env<N>, w: W)
    ensures Frames(TargetsOfAll(args), env, EvalAnd(h, n, args, env, w))
    decreases n, 2, |args|
  {
    if args == [] {
    } else {
      EvalFrame(h, n, args[0], env, w);
      var first := Eval(h, n, args[0], env, w);
      if first.Good() {
        AndFrame(h, n, args[1..], first.env, first.world);
        Chain(TargetsOfAll(args), Targets(args[0]), TargetsOfAll(args[1..]), env, first.env,
              EvalAnd(h, n, args[1..], first.env, first.world));
      }
    }
  }

  lemma {:induction false} OrFrame<N, W>(h: Host<N, W>, n: nat, args: seq<Exp<N>>, env: Env<N>, w: W)
    ensures Frames(TargetsOfAll(args), env, EvalOr(h, n, args, env, w))
    decreases n, 2, |args|
  {
    if args == [] {
    } else {
      EvalFrame(h, n, args[0], env, w);
      var first := Eval(h, n, args[0], env, w);
      if first.Good() {
        OrFrame(h, n, args[1..], first.env, first.world);
        Chain(TargetsOfAll(args), Targets(args[0]), TargetsOfAll(args[1..]), env, first.env,
              EvalOr(h, n, args[1..], first.env, first.world));
      }
    }
  }

  lemma {:induction false} LoopFrame<N, W>(h: Host<N, W>, n: nat, cond: Exp<N>, body: Exp<N>, env: Env<N>, w: W,
                                           targets: set<string>)
    requires Targets(cond) <= targets && Targets(body) <= targets
    ensures Frames(targets, env, Loop(h, n, cond, body, env, w))
    decreases n, 2, 0
  {
    EvalFrame(h, n, cond, env, w);
    var test := Eval(h, n, cond, env, w);
    if test.Good() && test.result.value.Bool? && test.result.value.b {
      var round := Eval(h, n, body, test.env, test.world);
      EvalFrame(h, n, body, test.env, test.world);
      Chain(targets, Targets(cond), Targets(body), env, test.env, round);
      if round.Good() && n > 0 {
        LoopFrame(h, n - 1, cond, body, round.env, round.world, targets);
        Chain(targets, targets, targets, env, round.env, Loop(h, n - 1, cond, body, round.env, round.world));
      }
    }
  }

  lemma {:induction false} DoFrame<N, W>(h: Host<N, W>, n: nat, args: seq<Exp<N>>, last: Exp<N>, env: Env<N>, w: W)
    ensures Frames(TargetsOfAll(args), env, EvalDo(h, n, args, last, env, w))
    decreases n, 2, |args|
  {
    if args == [] {
    } else {
      EvalFrame(h, n, args[0], env, w);
      var first := Eval(h, n, args[0], env, w);
      if first.Good() {
        DoFrame(h, n, args[1..], first.result.value, first.env, first.world);
        Chain(TargetsOfAll(args), Targets(args[0]), TargetsOfAll(args[1..]), env, first.env,
              EvalDo(h, n, args[1..], first.result.value, first.env, first.world));
      }
    }
  }

  /** Whatever the handler does, it does to an environment of its own. */
  lemma {:induction false} ErrorFrame<N, W>(h: Host<N, W>, n: nat, args: seq<Exp<N>>, env: Env<N>, w: W)
    ensures Frames(TargetsOfAll(args), env, EvalError(h, n, args, env, w))
    decreases n, 2, 0
  {
    if args != [] {
      EvalFrame(h, n, args[0], env, w);
      TargetsOfMember(args, 0);
    }
  }

  /** A call changes what its head and its arguments change; the body works on an environment of its own. */
  lemma {:induction false} CallFrame<N, W>(h: Host<N, W>, n: nat, head: Exp<N>, args: seq<Exp<N>>, env: Env<N>, w: W)
    ensures Frames(Targets(head) + TargetsOfAll(args), env, EvalCall(h, n, head, args, env, w))
    decreases n, 2, 0
  {
    EvalFrame(h, n, head, env, w);
    var f := Eval(h, n, head, env, w);
    if f.Good() {
      AllFrame(h, n, args, f.env, f.world);
      Chain(Targets(head) + TargetsOfAll(args), Targets(head), TargetsOfAll(args), env, f.env,
            EvalAll(h, n, args, f.env, f.world));
    }
  }

  /**
   * Whatever closures and error handlers it runs, and whether it succeeds or fails, an evaluation removes no binding
   * and leaves every variable that no mutating form names exactly as it was.
   */
  lemma EvaluationIsFramed<N, W>(h: Host<N, W>, n: nat, e: Exp<N>, env: Env<N>, w: W)
    requires Eval(h, n, e, env, w).Out?
    ensures var env' := Eval(h, n, e, env, w).env;
      && env.Keys <= env'.Keys <= env.Keys + Targets(e)
      && (forall k :: k in env && k !in Targets(e) ==> env'[k] == env[k])
      && (Targets(e) == {} ==> env' == env)
  {
    EvalFrame(h, n, e, env, w);
    var env' := Eval(h, n, e, env, w).env;
    if Targets(e) == {} {
      assert env'.Keys == env.Keys;
    }
  }
}
