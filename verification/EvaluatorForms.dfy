/** Calls, definitions and the forms that change lists and maps, in terms of what their parts evaluate to. */
module EvaluatorForms {
  import opened Basics
  import opened Lisp
  import opened Evaluator
  import opened EvaluatorFuel
  import opened EvaluatorUnfold
  import opened EvaluatorLaws

  // ----- The environment of a closure -----

  /** No later name is the same. */
  predicate LastOfName(names: seq<string>, k: nat)
    requires k < |names|
  {
    forall j :: k < j < |names| ==> names[j] != names[k]
  }

  /**
   * What the body of a closure sees: each parameter has its argument, the last one if names are equal; other names have
   * the captured value, and those not captured the value they have for the caller.
   */
  ghost predicate Scope<N>(inner: Env<N>, names: seq<string>, values: seq<Exp<N>>, captured: Env<N>, caller: Env<N>) {
    && |names| == |values|
    && (forall x :: x in inner <==> x in names || x in captured || x in caller)
    && (forall k :: 0 <= k < |names| && LastOfName(names, k) ==> names[k] in inner && inner[names[k]] == values[k])
    && (forall x :: x in captured && x !in names ==> x in inner && inner[x] == captured[x])
    && (forall x :: x in caller && x !in names && x !in captured ==> x in inner && inner[x] == caller[x])
  }

  lemma {:induction false} HasLast(names: seq<string>, x: string) returns (k: nat)
    requires x in names
    ensures k < |names| && names[k] == x && LastOfName(names, k)
  {
    var n := |names| - 1;
    if names[n] == x {
      k := n;
    } else {
      assert x in names[..n];
      k := HasLast(names[..n], x);
    }
  }

  /** Names and arguments determine what the body sees. */
  lemma ScopeIsUnique<N>(a: Env<N>, b: Env<N>, names: seq<string>, values: seq<Exp<N>>, captured: Env<N>, caller: Env<N>)
    requires Scope(a, names, values, captured, caller) && Scope(b, names, values, captured, caller)
    ensures a == b
  {
    forall x | x in a ensures x in b && a[x] == b[x] {
      if x in names {
        var k := HasLast(names, x);
      }
    }
    forall x | x in b ensures x in a {
    }
  }

  lemma {:induction false} BindAllBinds<N>(env: Env<N>, names: seq<string>, values: seq<Exp<N>>)
    requires |names| == |values|
    ensures forall x :: x in BindAll(env, names, values) <==> x in names || x in env
    ensures forall x :: x in env && x !in names ==> x in BindAll(env, names, values) && BindAll(env, names, values)[x] == env[x]
    ensures forall k :: 0 <= k < |names| && LastOfName(names, k) ==>
              names[k] in BindAll(env, names, values) && BindAll(env, names, values)[names[k]] == values[k]
    decreases |names|
  {
    if names == [] {
    } else {
      var env', rest, vs := env[names[0] := values[0]], names[1..], values[1..];
      BindAllBinds(env', rest, vs);
      var r := BindAll(env', rest, vs);
      assert names == [names[0]] + rest;
      forall k | 0 <= k < |names| && LastOfName(names, k) ensures names[k] in r && r[names[k]] == values[k] {
        if k > 0 {
          assert forall j :: k - 1 < j < |rest| ==> rest[j] == names[j + 1];
          assert LastOfName(rest, k - 1);
        } else {
          assert forall j :: 0 <= j < |rest| ==> rest[j] == names[j + 1];
        }
      }
    }
  }

  lemma BindAllScope<N>(names: seq<string>, values: seq<Exp<N>>, captured: Env<N>, caller: Env<N>)
    requires |names| == |values|
    ensures Scope(BindAll(caller + captured, names, values), names, values, captured, caller)
  {
    BindAllBinds(caller + captured, names, values);
  }

  /** The parameter list of a closure names these parameters. */
  ghost predicate Parameters<N>(params: Exp<N>, names: seq<string>) {
    params.List? && |params.items| == |names| && forall i :: 0 <= i < |names| ==> params.items[i] == Symbol(names[i])
  }

  lemma {:induction false} NamesOfSymbols<N>(items: seq<Exp<N>>, names: seq<string>)
    requires |items| == |names| && forall i :: 0 <= i < |names| ==> items[i] == Symbol(names[i])
    ensures SymbolNames(items) == Ok(names)
  {
    if items == [] {
    } else {
      NamesOfSymbols(items[1..], names[1..]);
      assert names == [names[0]] + names[1..];
    }
  }

  lemma {:induction false} NamesAreSymbols<N>(items: seq<Exp<N>>)
    requires SymbolNames(items).Ok?
    ensures Parameters(List(items), SymbolNames(items).value)
  {
    if items == [] {
    } else {
      NamesAreSymbols(items[1..]);
      var names := SymbolNames(items).value;
      forall i | 0 <= i < |names| ensures items[i] == Symbol(names[i]) {
        assert i == 0 || items[1..][i - 1] == Symbol(names[1..][i - 1]);
      }
    }
  }

  // ----- Calls -----

  predicate IsSpecial(s: string) {
    s in ["if", "def", "fn", "sys", "quote", "and", "or", "for", "append", "pop", "mset", "mdel", "do", "error"]
  }

  /** Anything but the name of a special form may head a call. */
  predicate HeadsCall<N>(head: Exp<N>) {
    !head.Symbol? || !IsSpecial(head.name)
  }

  function Call<N>(head: Exp<N>, args: seq<Exp<N>>): Exp<N> {
    List([head] + args)
  }

  lemma EvalOfCall<N, W>(h: Host<N, W>, n: nat, head: Exp<N>, args: seq<Exp<N>>, env: Env<N>, w: W)
    requires HeadsCall(head)
    ensures Eval(h, n + 1, Call(head, args), env, w) == EvalCall(h, n, head, args, env, w)
  {
    assert ([head] + args)[1..] == args;
  }

  /** The head has been evaluated to `f` and then the arguments, in turn, to `values`. */
  ghost predicate Prepared<N, W>(h: Host<N, W>, head: Exp<N>, args: seq<Exp<N>>, at: Moment<N, W>,
                                 f: Exp<N>, values: seq<Exp<N>>, trace: seq<Moment<N, W>>) {
    InTurn(h, [head] + args, [f] + values, trace) && trace[0] == at
  }

  /** With fuel `n` the head and the arguments of a call get that far. */
  ghost predicate ReadyAt<N, W>(h: Host<N, W>, n: nat, head: Exp<N>, args: seq<Exp<N>>, at: Moment<N, W>,
                                f: Exp<N>, mid: Moment<N, W>, values: seq<Exp<N>>, after: Moment<N, W>) {
    && Eval(h, n, head, at.env, at.world) == Out(Ok(f), mid.env, mid.world)
    && EvalAll(h, n, args, mid.env, mid.world) == Out(Ok(values), after.env, after.world)
  }

  lemma ReadyFuel<N, W>(h: Host<N, W>, head: Exp<N>, args: seq<Exp<N>>, at: Moment<N, W>,
                        f: Exp<N>, values: seq<Exp<N>>, trace: seq<Moment<N, W>>) returns (m: nat)
    requires Prepared(h, head, args, at, f, values, trace)
    ensures forall n: nat :: n >= m ==> ReadyAt(h, n, head, args, at, f, trace[1], values, Last(trace))
  {
    InTurnTail(h, [head] + args, [f] + values, trace);
    assert ([head] + args)[1..] == args && ([f] + values)[1..] == values;
    var m0 := Enough(h, head, at.env, at.world, Out(Ok(f), trace[1].env, trace[1].world));
    var m1 := AllOfTrace(h, args, values, trace[1..]);
    assert Last(trace[1..]) == Last(trace);
    m := m0 + m1;
  }

  /** Then the call is the application. */
  lemma ReadyCall<N, W>(h: Host<N, W>, n: nat, head: Exp<N>, args: seq<Exp<N>>, at: Moment<N, W>,
                        f: Exp<N>, mid: Moment<N, W>, values: seq<Exp<N>>, after: Moment<N, W>)
    requires HeadsCall(head) && ReadyAt(h, n, head, args, at, f, mid, values, after) && (f.Func? || f.Lambda?)
    ensures Eval(h, n + 1, Call(head, args), at.env, at.world) ==
      if f.Func? then Out(h.apply(f.id, values), after.env, after.world)
      else EvalBody(h, n, f, values, after.env, after.world)
  {
    EvalOfCall(h, n, head, args, at.env, at.world);
  }

  /** A builtin function gets the values of its arguments. */
  lemma BuiltinCall<N, W>(h: Host<N, W>, head: Exp<N>, args: seq<Exp<N>>, at: Moment<N, W>,
                          f: Exp<N>, values: seq<Exp<N>>, trace: seq<Moment<N, W>>)
    requires HeadsCall(head) && Prepared(h, head, args, at, f, values, trace) && f.Func?
    ensures Yields(h, Call(head, args), at.env, at.world, Out(h.apply(f.id, values), Last(trace).env, Last(trace).world))
  {
    var m := ReadyFuel(h, head, args, at, f, values, trace);
    ReadyCall(h, m, head, args, at, f, trace[1], values, Last(trace));
  }

  /** The scope of a call is the environment in which the body is evaluated. */
  lemma ScopeOfCall<N>(f: Exp<N>, values: seq<Exp<N>>, names: seq<string>, inner: Env<N>, caller: Env<N>)
    requires f.Lambda? && Parameters(f.params, names) && Scope(inner, names, values, f.captured, caller)
    ensures EnvForLambda(f.params, values, caller + f.captured) == Ok(inner)
  {
    NamesOfSymbols(f.params.items, names);
    BindAllScope(names, values, f.captured, caller);
    ScopeIsUnique(inner, BindAll(caller + f.captured, names, values), names, values, f.captured, caller);
  }

  /** With fuel `n`, the call of a closure is its body in that scope. */
  lemma ReadyBody<N, W>(h: Host<N, W>, n: nat, head: Exp<N>, args: seq<Exp<N>>, at: Moment<N, W>,
                        f: Exp<N>, mid: Moment<N, W>, values: seq<Exp<N>>, after: Moment<N, W>, inner: Env<N>)
    requires HeadsCall(head) && ReadyAt(h, n, head, args, at, f, mid, values, after) && f.Lambda?
    requires EnvForLambda(f.params, values, after.env + f.captured) == Ok(inner)
    ensures var r := Eval(h, n, f.body, inner, after.world);
      Eval(h, n + 1, Call(head, args), at.env, at.world) == if r.OutOfFuel? then OutOfFuel else Out(r.result, after.env, r.world)
  {
    ReadyCall(h, n, head, args, at, f, mid, values, after);
  }

  lemma BodyFromCall<N, W>(h: Host<N, W>, head: Exp<N>, args: seq<Exp<N>>, at: Moment<N, W>,
                           f: Exp<N>, values: seq<Exp<N>>, trace: seq<Moment<N, W>>, inner: Env<N>, out: Out<N, W, Exp<N>>)
    returns (left: Env<N>)
    requires HeadsCall(head) && Prepared(h, head, args, at, f, values, trace) && f.Lambda?
    requires EnvForLambda(f.params, values, Last(trace).env + f.captured) == Ok(inner)
    requires Yields(h, Call(head, args), at.env, at.world, out)
    ensures out.env == Last(trace).env
    ensures Yields(h, f.body, inner, Last(trace).world, Out(out.result, left, out.world))
  {
    var m := ReadyFuel(h, head, args, at, f, values, trace);
    var k := Enough(h, Call(head, args), at.env, at.world, out);
    ReadyBody(h, m + k, head, args, at, f, trace[1], values, Last(trace), inner);
    assert Eval(h, m + k + 1, Call(head, args), at.env, at.world) == out;
    left := Eval(h, m + k, f.body, inner, Last(trace).world).env;
  }

  lemma CallFromBody<N, W>(h: Host<N, W>, head: Exp<N>, args: seq<Exp<N>>, at: Moment<N, W>,
                           f: Exp<N>, values: seq<Exp<N>>, trace: seq<Moment<N, W>>, inner: Env<N>, body: Out<N, W, Exp<N>>)
    requires HeadsCall(head) && Prepared(h, head, args, at, f, values, trace) && f.Lambda?
    requires EnvForLambda(f.params, values, Last(trace).env + f.captured) == Ok(inner)
    requires Yields(h, f.body, inner, Last(trace).world, body)
    ensures Yields(h, Call(head, args), at.env, at.world, Out(body.result, Last(trace).env, body.world))
  {
    var m := ReadyFuel(h, head, args, at, f, values, trace);
    var k := Enough(h, f.body, inner, Last(trace).world, body);
    ReadyBody(h, m + k, head, args, at, f, trace[1], values, Last(trace), inner);
  }

  /**
   * The call of a closure ends exactly when its body does, in the scope of the call: with the result and the world of
   * the body, and the environment the arguments have left.
   */
  lemma ClosureCall<N(!new), W(!new)>(h: Host<N, W>, head: Exp<N>, args: seq<Exp<N>>, at: Moment<N, W>,
                                      f: Exp<N>, values: seq<Exp<N>>, trace: seq<Moment<N, W>>,
                                      names: seq<string>, inner: Env<N>, out: Out<N, W, Exp<N>>)
    requires HeadsCall(head) && Prepared(h, head, args, at, f, values, trace) && f.Lambda?
    requires Parameters(f.params, names) && Scope(inner, names, values, f.captured, Last(trace).env)
    ensures Yields(h, Call(head, args), at.env, at.world, out) <==>
      && out.Out? && out.env == Last(trace).env
      && exists left: Env<N> :: Yields(h, f.body, inner, Last(trace).world, Out(out.result, left, out.world))
  {
    ScopeOfCall(f, values, names, inner, Last(trace).env);
    if Yields(h, Call(head, args), at.env, at.world, out) {
      var left := BodyFromCall(h, head, args, at, f, values, trace, inner, out);
    }
    if out.Out? && out.env == Last(trace).env {
      if left: Env<N> :| Yields(h, f.body, inner, Last(trace).world, Out(out.result, left, out.world)) {
        CallFromBody(h, head, args, at, f, values, trace, inner, Out(out.result, left, out.world));
      }
    }
  }

  lemma BadParameters<N(!new)>(f: Exp<N>, values: seq<Exp<N>>, outer: Env<N>)
    requires f.Lambda? && forall names :: Parameters(f.params, names) ==> |names| != |values|
    ensures EnvForLambda(f.params, values, outer).Err?
  {
    if f.params.List? && SymbolNames(f.params.items).Ok? {
      NamesAreSymbols(f.params.items);
      assert Parameters(f.params, SymbolNames(f.params.items).value);
    }
  }

  /** With another number of arguments, or parameters that are no list of symbols, the call fails and nothing runs. */
  lemma BadClosureCall<N(!new), W>(h: Host<N, W>, head: Exp<N>, args: seq<Exp<N>>, at: Moment<N, W>,
                                   f: Exp<N>, values: seq<Exp<N>>, trace: seq<Moment<N, W>>)
    requires HeadsCall(head) && Prepared(h, head, args, at, f, values, trace) && f.Lambda?
    requires forall names :: Parameters(f.params, names) ==> |names| != |values|
    ensures exists reason ::
      Yields(h, Call(head, args), at.env, at.world, Out(Err(reason), Last(trace).env, Last(trace).world))
  {
    var after := Last(trace);
    var m := ReadyFuel(h, head, args, at, f, values, trace);
    BadParameters(f, values, after.env + f.captured);
    ReadyCall(h, m, head, args, at, f, trace[1], values, after);
    var reason := EnvForLambda(f.params, values, after.env + f.captured).reason;
    assert Yields(h, Call(head, args), at.env, at.world, Out(Err(reason), after.env, after.world));
  }

  /** A head that fails, or is no function, decides before any argument is evaluated. */
  lemma BadHead<N, W>(h: Host<N, W>, head: Exp<N>, args: seq<Exp<N>>, at: Moment<N, W>, out: Out<N, W, Exp<N>>)
    requires HeadsCall(head) && Yields(h, head, at.env, at.world, out)
    requires out.result.Ok? ==> !out.result.value.Func? && !out.result.value.Lambda?
    ensures Yields(h, Call(head, args), at.env, at.world,
                   if out.result.Err? then out else Out(Err("first form must be a function"), out.env, out.world))
  {
    var n := Enough(h, head, at.env, at.world, out);
    EvalOfCall(h, n, head, args, at.env, at.world);
  }

  /** The forms before `k` evaluate in turn, and form `k` fails. */
  ghost predicate FailsAt<N, W>(h: Host<N, W>, args: seq<Exp<N>>, k: nat, values: seq<Exp<N>>, trace: seq<Moment<N, W>>,
                                out: Out<N, W, Exp<N>>) {
    && k < |args| && InTurn(h, args[..k], values, trace)
    && Yields(h, args[k], trace[k].env, trace[k].world, out) && out.result.Err?
  }

  lemma FailsAtTail<N, W>(h: Host<N, W>, args: seq<Exp<N>>, k: nat, values: seq<Exp<N>>, trace: seq<Moment<N, W>>,
                          out: Out<N, W, Exp<N>>)
    requires FailsAt(h, args, k, values, trace, out) && k > 0
    ensures Ends(h, args[0], trace[0], values[0], trace[1]) && FailsAt(h, args[1..], k - 1, values[1..], trace[1..], out)
  {
    InTurnTail(h, args[..k], values, trace);
    assert args[..k][1..] == args[1..][..k - 1];
  }

  lemma {:induction false} AllFails<N, W>(h: Host<N, W>, args: seq<Exp<N>>, k: nat, values: seq<Exp<N>>, trace: seq<Moment<N, W>>,
                                          out: Out<N, W, Exp<N>>) returns (m: nat)
    requires FailsAt(h, args, k, values, trace, out)
    ensures forall n: nat :: n >= m ==>
      EvalAll(h, n, args, trace[0].env, trace[0].world) == Out(Err(out.result.reason), out.env, out.world)
    decreases k
  {
    if k == 0 {
      m := Enough(h, args[0], trace[0].env, trace[0].world, out);
    } else {
      FailsAtTail(h, args, k, values, trace, out);
      var m0 := Enough(h, args[0], trace[0].env, trace[0].world, Out(Ok(values[0]), trace[1].env, trace[1].world));
      var m1 := AllFails(h, args[1..], k - 1, values[1..], trace[1..], out);
      m := m0 + m1;
    }
  }

  /** The first argument that fails ends a call: neither the later arguments nor the function are evaluated. */
  lemma BadArgument<N, W>(h: Host<N, W>, head: Exp<N>, args: seq<Exp<N>>, at: Moment<N, W>, f: Exp<N>,
                          k: nat, values: seq<Exp<N>>, trace: seq<Moment<N, W>>, out: Out<N, W, Exp<N>>)
    requires HeadsCall(head) && (f.Func? || f.Lambda?)
    requires FailsAt(h, args, k, values, trace, out) && Ends(h, head, at, f, trace[0])
    ensures Yields(h, Call(head, args), at.env, at.world, out)
  {
    var m0 := Enough(h, head, at.env, at.world, Out(Ok(f), trace[0].env, trace[0].world));
    var m1 := AllFails(h, args, k, values, trace, out);
    var n := m0 + m1;
    EvalOfCall(h, n, head, args, at.env, at.world);
    assert Eval(h, n, head, at.env, at.world) == Out(Ok(f), trace[0].env, trace[0].world);
    assert EvalAll(h, n, args, trace[0].env, trace[0].world) == Out(Err(out.result.reason), out.env, out.world);
    assert Eval(h, n + 1, Call(head, args), at.env, at.world) == out;
  }

  // ----- Forms without fuel -----

  lemma FormYields<N, W>(h: Host<N, W>, n: nat, s: string, args: seq<Exp<N>>, at: Moment<N, W>, out: Out<N, W, Exp<N>>)
    requires EvalForm(h, n, s, args, at.env, at.world) == out && out.Out?
    ensures Yields(h, Form(s, args), at.env, at.world, out)
  {
    EvalOfForm(h, n, s, args, at.env, at.world);
    assert Eval(h, n + 1, Form(s, args), at.env, at.world) == out;
  }

  /** Booleans, numbers, strings and maps stand for themselves; a symbol stands for its value. */
  lemma AtomLaw<N, W>(h: Host<N, W>, e: Exp<N>, at: Moment<N, W>)
    requires e.Bool? || e.Number? || e.String? || e.Map? || (e.Symbol? && e.name in at.env)
    ensures Yields(h, e, at.env, at.world, Out(Ok(if e.Symbol? then at.env[e.name] else e), at.env, at.world))
  {
    assert Eval(h, 1, e, at.env, at.world) == Out(Ok(if e.Symbol? then at.env[e.name] else e), at.env, at.world);
  }

  lemma UnboundLaw<N(!new), W(!new)>(h: Host<N, W>, x: string, at: Moment<N, W>)
    requires x !in at.env
    ensures exists reason :: Yields(h, Symbol(x), at.env, at.world, Out(Err(reason), at.env, at.world))
  {
    var r := Eval(h, 1, Symbol(x), at.env, at.world);
    assert Yields(h, Symbol(x), at.env, at.world, Out(Err(r.result.reason), at.env, at.world));
  }

  /** `quote` yields its first form unevaluated; more forms are ignored, here and in the laws below. */
  lemma QuoteLaw<N, W>(h: Host<N, W>, e: Exp<N>, more: seq<Exp<N>>, at: Moment<N, W>)
    ensures Yields(h, Form("quote", [e] + more), at.env, at.world, Out(Ok(e), at.env, at.world))
  {
    FormYields(h, 0, "quote", [e] + more, at, Out(Ok(e), at.env, at.world));
  }

  /** A closure keeps the environment in which it is made. */
  lemma FnLaw<N, W>(h: Host<N, W>, params: Exp<N>, body: Exp<N>, at: Moment<N, W>)
    ensures Yields(h, Form("fn", [params, body]), at.env, at.world, Out(Ok(Lambda(params, body, at.env)), at.env, at.world))
  {
    FormYields(h, 0, "fn", [params, body], at, Out(Ok(Lambda(params, body, at.env)), at.env, at.world));
  }

  lemma IfStep<N, W>(h: Host<N, W>, n: nat, args: seq<Exp<N>>, at: Moment<N, W>, b: bool, mid: Moment<N, W>)
    requires |args| > (if b then 1 else 2) && Eval(h, n, args[0], at.env, at.world) == Out(Ok(Bool(b)), mid.env, mid.world)
    ensures Eval(h, n + 1, Form("if", args), at.env, at.world) == Eval(h, n, args[if b then 1 else 2], mid.env, mid.world)
  {
    EvalOfForm(h, n, "if", args, at.env, at.world);
    assert EvalForm(h, n, "if", args, at.env, at.world) == EvalIf(h, n, args, at.env, at.world);
  }

  /** The branch is chosen by the condition; the other one is not evaluated. */
  lemma IfLaw<N, W>(h: Host<N, W>, args: seq<Exp<N>>, at: Moment<N, W>, b: bool, mid: Moment<N, W>, out: Out<N, W, Exp<N>>)
    requires |args| > (if b then 1 else 2) && Ends(h, args[0], at, Bool(b), mid)
    ensures Yields(h, Form("if", args), at.env, at.world, out) <==>
            Yields(h, args[if b then 1 else 2], mid.env, mid.world, out)
  {
    var branch := args[if b then 1 else 2];
    var m := Enough(h, args[0], at.env, at.world, Out(Ok(Bool(b)), mid.env, mid.world));
    if Yields(h, Form("if", args), at.env, at.world, out) {
      var k := Enough(h, Form("if", args), at.env, at.world, out);
      IfStep(h, m + k, args, at, b, mid);
      assert Eval(h, m + k + 1, Form("if", args), at.env, at.world) == out;
    }
    if Yields(h, branch, mid.env, mid.world, out) {
      var k := Enough(h, branch, mid.env, mid.world, out);
      IfStep(h, m + k, args, at, b, mid);
      assert Eval(h, m + k + 1, Form("if", args), at.env, at.world) == out;
    }
  }

  /** `def` binds the value in the environment its evaluation leaves, and yields the symbol. */
  lemma DefLaw<N, W>(h: Host<N, W>, x: string, e: Exp<N>, at: Moment<N, W>, out: Out<N, W, Exp<N>>)
    requires Yields(h, e, at.env, at.world, out)
    ensures Yields(h, Form("def", [Symbol(x), e]), at.env, at.world,
                   if out.result.Err? then out else Out(Ok(Symbol(x)), out.env[x := out.result.value], out.world))
  {
    var n := Enough(h, e, at.env, at.world, out);
    assert Eval(h, n, [Symbol(x), e][1], at.env, at.world) == out;
    FormYields(h, n, "def", [Symbol(x), e], at,
               if out.result.Err? then out else Out(Ok(Symbol(x)), out.env[x := out.result.value], out.world));
  }

  // ----- Lists and maps in variables -----

  /** `append` adds the value behind the list the variable holds by then, and yields the longer list. */
  lemma AppendLaw<N, W>(h: Host<N, W>, x: string, e: Exp<N>, more: seq<Exp<N>>, at: Moment<N, W>, v: Exp<N>, mid: Moment<N, W>, items: seq<Exp<N>>)
    requires Ends(h, e, at, v, mid) && x in mid.env && mid.env[x] == List(items)
    ensures Ends(h, Form("append", [Symbol(x), e] + more), at, List(items + [v]), Moment(mid.env[x := List(items + [v])], mid.world))
  {
    var n := Enough(h, e, at.env, at.world, Out(Ok(v), mid.env, mid.world));
    assert Eval(h, n, ([Symbol(x), e] + more)[1], at.env, at.world) == Out(Ok(v), mid.env, mid.world);
    FormYields(h, n, "append", [Symbol(x), e] + more, at, Out(Ok(List(items + [v])), mid.env[x := List(items + [v])], mid.world));
  }

  /** `pop` takes the last element. */
  lemma PopLaw<N, W>(h: Host<N, W>, x: string, more: seq<Exp<N>>, at: Moment<N, W>, items: seq<Exp<N>>, v: Exp<N>)
    requires x in at.env && at.env[x] == List(items + [v])
    ensures Ends(h, Form("pop", [Symbol(x)] + more), at, v, Moment(at.env[x := List(items)], at.world))
  {
    assert (items + [v])[..|items|] == items;
    FormYields(h, 0, "pop", [Symbol(x)] + more, at, Out(Ok(v), at.env[x := List(items)], at.world));
  }

  lemma PopOfNothing<N(!new), W(!new)>(h: Host<N, W>, x: string, more: seq<Exp<N>>, at: Moment<N, W>)
    requires x !in at.env || !at.env[x].List? || at.env[x].items == []
    ensures exists reason :: Yields(h, Form("pop", [Symbol(x)] + more), at.env, at.world, Out(Err(reason), at.env, at.world))
  {
    var r := EvalForm(h, 0, "pop", [Symbol(x)] + more, at.env, at.world);
    FormYields(h, 0, "pop", [Symbol(x)] + more, at, r);
    assert r == Out(Err(r.result.reason), at.env, at.world);
  }

  /** What `append` added, `pop` gives back, and the variable is as before. */
  lemma PopUndoesAppend<N, W>(h: Host<N, W>, x: string, e: Exp<N>, at: Moment<N, W>, v: Exp<N>, mid: Moment<N, W>, items: seq<Exp<N>>)
    requires Ends(h, e, at, v, mid) && x in mid.env && mid.env[x] == List(items)
    ensures exists between: Moment<N, W> ::
      && Ends(h, Form("append", [Symbol(x), e]), at, List(items + [v]), between)
      && Ends(h, Form("pop", [Symbol(x)]), between, v, mid)
  {
    var between := Moment(mid.env[x := List(items + [v])], mid.world);
    AppendLaw(h, x, e, [], at, v, mid, items);
    PopLaw(h, x, [], between, items, v);
    var name: seq<Exp<N>> := [Symbol(x)];
    assert name + [] == name && [Symbol(x), e] + [] == [Symbol(x), e];
    assert between.env[x := List(items)] == mid.env;
  }

  /** What may serve as a key of a map. */
  predicate IsKey<N, W>(h: Host<N, W>, v: Exp<N>, key: Key) {
    || (v.String? && key == KeyString(v.text))
    || (v.Number? && key == KeyNumber(h.keyNumber(v.n)))
    || (v.Bool? && key == KeyBool(v.b))
  }

  /** `mset` evaluates the key, then the value, stores the one under the other, and yields the value. */
  lemma MsetLaw<N, W>(h: Host<N, W>, x: string, k: Exp<N>, e: Exp<N>, more: seq<Exp<N>>, v: Exp<N>, key: Key, kv: Exp<N>,
                      at: Moment<N, W>, mid: Moment<N, W>, after: Moment<N, W>, entries: map<Key, Exp<N>>)
    requires Ends(h, k, at, kv, mid) && IsKey(h, kv, key) && Ends(h, e, mid, v, after)
    requires x in after.env && after.env[x] == Map(entries)
    ensures Ends(h, Form("mset", [Symbol(x), k, e] + more), at, v, Moment(after.env[x := Map(entries[key := v])], after.world))
  {
    var m := Enough(h, k, at.env, at.world, Out(Ok(kv), mid.env, mid.world));
    var m' := Enough(h, e, mid.env, mid.world, Out(Ok(v), after.env, after.world));
    var n := m + m';
    var args := [Symbol(x), k, e] + more;
    assert Eval(h, n, args[1], at.env, at.world) == Out(Ok(kv), mid.env, mid.world);
    assert Eval(h, n, args[2], mid.env, mid.world) == Out(Ok(v), after.env, after.world);
    FormYields(h, n, "mset", args, at, Out(Ok(v), after.env[x := Map(entries[key := v])], after.world));
  }

  /** `mdel` removes the key, whether or not it is there, and yields true. */
  lemma MdelLaw<N, W>(h: Host<N, W>, x: string, k: Exp<N>, more: seq<Exp<N>>, key: Key, kv: Exp<N>,
                      at: Moment<N, W>, mid: Moment<N, W>, entries: map<Key, Exp<N>>)
    requires Ends(h, k, at, kv, mid) && IsKey(h, kv, key) && x in mid.env && mid.env[x] == Map(entries)
    ensures Ends(h, Form("mdel", [Symbol(x), k] + more), at, Bool(true), Moment(mid.env[x := Map(entries - {key})], mid.world))
  {
    var n := Enough(h, k, at.env, at.world, Out(Ok(kv), mid.env, mid.world));
    assert Eval(h, n, ([Symbol(x), k] + more)[1], at.env, at.world) == Out(Ok(kv), mid.env, mid.world);
    FormYields(h, n, "mdel", [Symbol(x), k] + more, at, Out(Ok(Bool(true)), mid.env[x := Map(entries - {key})], mid.world));
  }

  // ----- do, sys, error -----

  lemma {:induction false} DoOfTrace<N, W>(h: Host<N, W>, args: seq<Exp<N>>, last: Exp<N>, values: seq<Exp<N>>, trace: seq<Moment<N, W>>)
    returns (m: nat)
    requires InTurn(h, args, values, trace)
    ensures forall n: nat :: n >= m ==>
      EvalDo(h, n, args, last, trace[0].env, trace[0].world)
      == Out(Ok(if values == [] then last else Last(values)), Last(trace).env, Last(trace).world)
    decreases |args|
  {
    if args == [] {
      m := 0;
    } else {
      InTurnTail(h, args, values, trace);
      var m0 := Enough(h, args[0], trace[0].env, trace[0].world, Out(Ok(values[0]), trace[1].env, trace[1].world));
      var m1 := DoOfTrace(h, args[1..], values[0], values[1..], trace[1..]);
      m := m0 + m1;
    }
  }

  /** `do` evaluates its forms in turn and yields the value of the last; without forms, the empty list. */
  lemma DoLaw<N, W>(h: Host<N, W>, args: seq<Exp<N>>, values: seq<Exp<N>>, trace: seq<Moment<N, W>>)
    requires InTurn(h, args, values, trace)
    ensures Ends(h, Form("do", args), trace[0], if values == [] then List([]) else Last(values), Last(trace))
  {
    var m := DoOfTrace(h, args, List([]), values, trace);
    FormYields(h, m, "do", args, trace[0],
               Out(Ok(if values == [] then List([]) else Last(values)), Last(trace).env, Last(trace).world));
  }

  lemma {:induction false} DoFails<N, W>(h: Host<N, W>, args: seq<Exp<N>>, last: Exp<N>, k: nat, values: seq<Exp<N>>,
                                         trace: seq<Moment<N, W>>, out: Out<N, W, Exp<N>>) returns (m: nat)
    requires FailsAt(h, args, k, values, trace, out)
    ensures forall n: nat :: n >= m ==> EvalDo(h, n, args, last, trace[0].env, trace[0].world) == out
    decreases k
  {
    if k == 0 {
      m := Enough(h, args[0], trace[0].env, trace[0].world, out);
    } else {
      FailsAtTail(h, args, k, values, trace, out);
      var m0 := Enough(h, args[0], trace[0].env, trace[0].world, Out(Ok(values[0]), trace[1].env, trace[1].world));
      var m1 := DoFails(h, args[1..], values[0], k - 1, values[1..], trace[1..], out);
      m := m0 + m1;
    }
  }

  /** The first form of a `do` that fails ends it. */
  lemma BadDo<N, W>(h: Host<N, W>, args: seq<Exp<N>>, k: nat, values: seq<Exp<N>>, trace: seq<Moment<N, W>>, out: Out<N, W, Exp<N>>)
    requires FailsAt(h, args, k, values, trace, out)
    ensures Yields(h, Form("do", args), trace[0].env, trace[0].world, out)
  {
    var m := DoFails(h, args, List([]), k, values, trace, out);
    FormYields(h, m, "do", args, trace[0], out);
  }

  /** The word an argument of a system call stands for. */
  ghost predicate StandsFor<N, W>(h: Host<N, W>, v: Exp<N>, word: string) {
    && !v.Func? && !v.Lambda? && !v.Syscall?
    && word == if v.Symbol? then v.name else if v.String? then v.text else h.show(v)
  }

  lemma {:induction false} WordsOf<N, W>(h: Host<N, W>, values: seq<Exp<N>>, words: seq<string>)
    requires |words| == |values| && forall i :: 0 <= i < |words| ==> StandsFor(h, values[i], words[i])
    ensures CommandWords(h, values) == Ok(words)
  {
    if values == [] {
    } else {
      assert StandsFor(h, values[0], words[0]);
      WordsOf(h, values[1..], words[1..]);
      assert words == [words[0]] + words[1..];
    }
  }

  /** `sys` runs the command whose words its arguments evaluate to, in the world they leave. */
  lemma SysLaw<N, W>(h: Host<N, W>, args: seq<Exp<N>>, values: seq<Exp<N>>, words: seq<string>, trace: seq<Moment<N, W>>)
    requires args != [] && InTurn(h, args, values, trace)
    requires |words| == |values| && forall i :: 0 <= i < |words| ==> StandsFor(h, values[i], words[i])
    ensures var (error, w') := h.runCmd(words, Last(trace).world);
      Yields(h, Form("sys", args), trace[0].env, trace[0].world,
             Out(if error.Some? then Err(error.value) else Ok(Syscall(words)), Last(trace).env, w'))
  {
    var m := AllOfTrace(h, args, values, trace);
    WordsOf(h, values, words);
    var (error, w') := h.runCmd(words, Last(trace).world);
    assert EvalAll(h, m, args, trace[0].env, trace[0].world) == Out(Ok(values), Last(trace).env, Last(trace).world);
    assert EvalForm(h, m, "sys", args, trace[0].env, trace[0].world) == EvalSys(h, m, args, trace[0].env, trace[0].world);
    FormYields(h, m, "sys", args, trace[0],
               Out(if error.Some? then Err(error.value) else Ok(Syscall(words)), Last(trace).env, w'));
  }

  /** The text of an error message. */
  function Text<N, W>(h: Host<N, W>, v: Exp<N>): string {
    if v.String? then v.text else h.show(v)
  }

  /**
   * `error` with a closure of one parameter bound to `error`: the closure is run on the message, what becomes of it is
   * ignored but for the world, and the form fails with the message.
   */
  lemma ErrorLaw<N, W>(h: Host<N, W>, e: Exp<N>, more: seq<Exp<N>>, at: Moment<N, W>, v: Exp<N>, mid: Moment<N, W>,
                       x: string, inner: Env<N>, handled: Out<N, W, Exp<N>>)
    requires Ends(h, e, at, v, mid) && "error" in mid.env && mid.env["error"].Lambda?
    requires Parameters(mid.env["error"].params, [x]) && Scope(inner, [x], [v], mid.env["error"].captured, mid.env)
    requires Yields(h, mid.env["error"].body, inner, mid.world, handled)
    ensures Yields(h, Form("error", [e] + more), at.env, at.world, Out(Err(Text(h, v)), mid.env, handled.world))
  {
    var f := mid.env["error"];
    ScopeOfCall(f, [v], [x], inner, mid.env);
    var m := Enough(h, e, at.env, at.world, Out(Ok(v), mid.env, mid.world));
    var k := Enough(h, f.body, inner, mid.world, handled);
    var n := m + k;
    assert Handler(mid.env, v) == Some((f.body, inner));
    assert Eval(h, n, ([e] + more)[0], at.env, at.world) == Out(Ok(v), mid.env, mid.world);
    assert Eval(h, n, f.body, inner, mid.world) == handled;
    FormYields(h, n, "error", [e] + more, at, Out(Err(Text(h, v)), mid.env, handled.world));
  }

  /** Without such a closure the form just fails with the message. */
  lemma PlainErrorLaw<N(!new), W>(h: Host<N, W>, e: Exp<N>, more: seq<Exp<N>>, at: Moment<N, W>, v: Exp<N>, mid: Moment<N, W>)
    requires Ends(h, e, at, v, mid)
    requires "error" in mid.env && mid.env["error"].Lambda? ==>
      forall names :: Parameters(mid.env["error"].params, names) ==> |names| != 1
    ensures Yields(h, Form("error", [e] + more), at.env, at.world, Out(Err(Text(h, v)), mid.env, mid.world))
  {
    if "error" in mid.env && mid.env["error"].Lambda? {
      BadParameters(mid.env["error"], [v], mid.env + mid.env["error"].captured);
    }
    assert Handler(mid.env, v) == None;
    var n := Enough(h, e, at.env, at.world, Out(Ok(v), mid.env, mid.world));
    assert Eval(h, n, ([e] + more)[0], at.env, at.world) == Out(Ok(v), mid.env, mid.world);
    FormYields(h, n, "error", [e] + more, at, Out(Err(Text(h, v)), mid.env, mid.world));
  }

  // ----- Forms that fail -----

  predicate NoSymbol<N>(args: seq<Exp<N>>) {
    args == [] || !args[0].Symbol?
  }

  /** A form with parts missing or too many. */
  predicate Malformed<N>(s: string, args: seq<Exp<N>>) {
    || ((s == "if" || s == "sys" || s == "quote" || s == "error") && args == [])
    || (s == "fn" && |args| != 2)
    || (s == "for" && |args| < 2)
  }

  /** Such a form fails before anything is evaluated. */
  lemma MalformedFails<N(!new), W(!new)>(h: Host<N, W>, s: string, args: seq<Exp<N>>, at: Moment<N, W>)
    requires Malformed(s, args)
    ensures exists reason :: Yields(h, Form(s, args), at.env, at.world, Out(Err(reason), at.env, at.world))
  {
    var r := EvalForm(h, 0, s, args, at.env, at.world);
    assert r.Out? && r.result.Err? && r.env == at.env && r.world == at.world;
    FormYields(h, 0, s, args, at, Out(Err(r.result.reason), at.env, at.world));
  }

  /** The same for the forms that change a variable, also when no symbol names it. */
  lemma MalformedBindingFails<N(!new), W(!new)>(h: Host<N, W>, s: string, args: seq<Exp<N>>, at: Moment<N, W>)
    requires (s == "def" && (NoSymbol(args) || |args| != 2)) || (s == "pop" && NoSymbol(args))
    ensures exists reason :: Yields(h, Form(s, args), at.env, at.world, Out(Err(reason), at.env, at.world))
  {
    var r := EvalForm(h, 0, s, args, at.env, at.world);
    assert r.Out? && r.result.Err? && r.env == at.env && r.world == at.world;
    FormYields(h, 0, s, args, at, Out(Err(r.result.reason), at.env, at.world));
  }

  lemma MalformedStoreFails<N(!new), W(!new)>(h: Host<N, W>, s: string, args: seq<Exp<N>>, at: Moment<N, W>)
    requires s == "append" || s == "mdel" || s == "mset"
    requires NoSymbol(args) || |args| < (if s == "mset" then 3 else 2)
    ensures exists reason :: Yields(h, Form(s, args), at.env, at.world, Out(Err(reason), at.env, at.world))
  {
    var r := EvalForm(h, 0, s, args, at.env, at.world);
    assert r.Out? && r.result.Err? && r.env == at.env && r.world == at.world;
    FormYields(h, 0, s, args, at, Out(Err(r.result.reason), at.env, at.world));
  }

  /** A condition that is no boolean, or a branch that is missing, fails once the condition has been evaluated. */
  lemma BadIf<N(!new), W(!new)>(h: Host<N, W>, args: seq<Exp<N>>, at: Moment<N, W>, v: Exp<N>, mid: Moment<N, W>)
    requires args != [] && Ends(h, args[0], at, v, mid)
    requires !v.Bool? || |args| <= (if v.b then 1 else 2)
    ensures exists reason :: Yields(h, Form("if", args), at.env, at.world, Out(Err(reason), mid.env, mid.world))
  {
    var n := Enough(h, args[0], at.env, at.world, Out(Ok(v), mid.env, mid.world));
    assert Eval(h, n, args[0], at.env, at.world) == Out(Ok(v), mid.env, mid.world);
    var r := EvalIf(h, n, args, at.env, at.world);
    assert r.Out? && r.result.Err? && r.env == mid.env && r.world == mid.world;
    FormYields(h, n, "if", args, at, Out(Err(r.result.reason), mid.env, mid.world));
  }

  /** `append` to anything but a variable that holds a list fails once the value has been evaluated. */
  lemma AppendToNoList<N(!new), W(!new)>(h: Host<N, W>, x: string, e: Exp<N>, more: seq<Exp<N>>, at: Moment<N, W>, v: Exp<N>, mid: Moment<N, W>)
    requires Ends(h, e, at, v, mid) && (x !in mid.env || !mid.env[x].List?)
    ensures exists reason ::
      Yields(h, Form("append", [Symbol(x), e] + more), at.env, at.world, Out(Err(reason), mid.env, mid.world))
  {
    var args := [Symbol(x), e] + more;
    var n := Enough(h, e, at.env, at.world, Out(Ok(v), mid.env, mid.world));
    assert Eval(h, n, args[1], at.env, at.world) == Out(Ok(v), mid.env, mid.world);
    var r := EvalAppend(h, n, args, at.env, at.world);
    assert r.Out? && r.result.Err? && r.env == mid.env && r.world == mid.world;
    FormYields(h, n, "append", args, at, Out(Err(r.result.reason), mid.env, mid.world));
  }

  /** `mdel` with something that is no key, or on anything but a map, fails once the key has been evaluated. */
  lemma MdelOfNoMap<N(!new), W(!new)>(h: Host<N, W>, x: string, k: Exp<N>, more: seq<Exp<N>>, at: Moment<N, W>, kv: Exp<N>, mid: Moment<N, W>)
    requires Ends(h, k, at, kv, mid)
    requires (forall key :: !IsKey(h, kv, key)) || x !in mid.env || !mid.env[x].Map?
    ensures exists reason ::
      Yields(h, Form("mdel", [Symbol(x), k] + more), at.env, at.world, Out(Err(reason), mid.env, mid.world))
  {
    var args := [Symbol(x), k] + more;
    var n := Enough(h, k, at.env, at.world, Out(Ok(kv), mid.env, mid.world));
    assert Eval(h, n, args[1], at.env, at.world) == Out(Ok(kv), mid.env, mid.world);
    var key := ExpToKey(h, kv);
    assert key.Ok? ==> IsKey(h, kv, key.value);
    var r := EvalMdel(h, n, args, at.env, at.world);
    assert r.Out? && r.result.Err? && r.env == mid.env && r.world == mid.world;
    FormYields(h, n, "mdel", args, at, Out(Err(r.result.reason), mid.env, mid.world));
  }

  /** `mset` with something that is no key fails before its value is evaluated. */
  lemma MsetOfNoKey<N(!new), W(!new)>(h: Host<N, W>, x: string, k: Exp<N>, e: Exp<N>, more: seq<Exp<N>>,
                                      at: Moment<N, W>, kv: Exp<N>, mid: Moment<N, W>)
    requires Ends(h, k, at, kv, mid) && forall key :: !IsKey(h, kv, key)
    ensures exists reason ::
      Yields(h, Form("mset", [Symbol(x), k, e] + more), at.env, at.world, Out(Err(reason), mid.env, mid.world))
  {
    var args := [Symbol(x), k, e] + more;
    var n := Enough(h, k, at.env, at.world, Out(Ok(kv), mid.env, mid.world));
    assert Eval(h, n, args[1], at.env, at.world) == Out(Ok(kv), mid.env, mid.world);
    var key := ExpToKey(h, kv);
    assert key.Ok? ==> IsKey(h, kv, key.value);
    var r := EvalMset(h, n, args, at.env, at.world);
    assert r.Out? && r.result.Err? && r.env == mid.env && r.world == mid.world;
    FormYields(h, n, "mset", args, at, Out(Err(r.result.reason), mid.env, mid.world));
  }

  /** `mset` on anything but a map fails once key and value have been evaluated. */
  lemma MsetOfNoMap<N(!new), W(!new)>(h: Host<N, W>, x: string, k: Exp<N>, e: Exp<N>, more: seq<Exp<N>>,
                                      at: Moment<N, W>, kv: Exp<N>, mid: Moment<N, W>, v: Exp<N>, after: Moment<N, W>, key: Key)
    requires Ends(h, k, at, kv, mid) && IsKey(h, kv, key) && Ends(h, e, mid, v, after)
    requires x !in after.env || !after.env[x].Map?
    ensures exists reason ::
      Yields(h, Form("mset", [Symbol(x), k, e] + more), at.env, at.world, Out(Err(reason), after.env, after.world))
  {
    var args := [Symbol(x), k, e] + more;
    var m := Enough(h, k, at.env, at.world, Out(Ok(kv), mid.env, mid.world));
    var m' := Enough(h, e, mid.env, mid.world, Out(Ok(v), after.env, after.world));
    var n := m + m';
    assert Eval(h, n, args[1], at.env, at.world) == Out(Ok(kv), mid.env, mid.world);
    assert Eval(h, n, args[2], mid.env, mid.world) == Out(Ok(v), after.env, after.world);
    var r := EvalMset(h, n, args, at.env, at.world);
    assert r.Out? && r.result.Err? && r.env == after.env && r.world == after.world;
    FormYields(h, n, "mset", args, at, Out(Err(r.result.reason), after.env, after.world));
  }
}
