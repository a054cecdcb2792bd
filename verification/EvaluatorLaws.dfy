/** What the forms of the language mean, without fuel: in terms of what their parts evaluate to. */
module EvaluatorLaws {
  import opened Basics
  import opened Lisp
  import opened Evaluator
  import opened EvaluatorFuel
  import opened EvaluatorUnfold

  /** The evaluation of `e` ends with `out`: a value or an error, the environment and the world it leaves. */
  ghost predicate Yields<N, W>(h: Host<N, W>, e: Exp<N>, env: Env<N>, w: W, out: Out<N, W, Exp<N>>) {
    out.Out? && exists n: nat :: Eval(h, n, e, env, w) == out
  }

  /** An evaluation ends in one way only. */
  lemma YieldsOnce<N, W>(h: Host<N, W>, e: Exp<N>, env: Env<N>, w: W, a: Out<N, W, Exp<N>>, b: Out<N, W, Exp<N>>)
    requires Yields(h, e, env, w, a) && Yields(h, e, env, w, b)
    ensures a == b
  {
    var m: nat :| Eval(h, m, e, env, w) == a;
    var n: nat :| Eval(h, n, e, env, w) == b;
    MoreFuel(h, m, m + n, e, env, w);
    MoreFuel(h, n, m + n, e, env, w);
  }

  /** Enough fuel for an evaluation; any more does as well. */
  lemma Enough<N, W>(h: Host<N, W>, e: Exp<N>, env: Env<N>, w: W, out: Out<N, W, Exp<N>>) returns (m: nat)
    requires Yields(h, e, env, w, out)
    ensures forall n: nat :: n >= m ==> Eval(h, n, e, env, w) == out
  {
    m :| Eval(h, m, e, env, w) == out;
    forall n: nat | n >= m ensures Eval(h, n, e, env, w) == out {
      MoreFuel(h, m, n, e, env, w);
    }
  }

  // ----- Evaluating in turn -----

  datatype Moment<!N, W> = Moment(env: Env<N>, world: W)

  /** The expressions evaluate to the values one after the other, each where the one before has left off. */
  ghost predicate InTurn<N, W>(h: Host<N, W>, args: seq<Exp<N>>, values: seq<Exp<N>>, trace: seq<Moment<N, W>>) {
    && |values| == |args| && |trace| == |args| + 1
    && forall i :: 0 <= i < |args| ==> Ends(h, args[i], trace[i], values[i], trace[i + 1])
  }

  ghost predicate Ends<N, W>(h: Host<N, W>, e: Exp<N>, before: Moment<N, W>, value: Exp<N>, after: Moment<N, W>) {
    Yields(h, e, before.env, before.world, Out(Ok(value), after.env, after.world))
  }

  function Last<T>(s: seq<T>): T
    requires s != []
  {
    s[|s| - 1]
  }

  lemma InTurnTail<N, W>(h: Host<N, W>, args: seq<Exp<N>>, values: seq<Exp<N>>, trace: seq<Moment<N, W>>)
    requires InTurn(h, args, values, trace) && args != []
    ensures Ends(h, args[0], trace[0], values[0], trace[1]) && InTurn(h, args[1..], values[1..], trace[1..])
  {
    var rest, vs, tr := args[1..], values[1..], trace[1..];
    forall i | 0 <= i < |rest| ensures Ends(h, rest[i], tr[i], vs[i], tr[i + 1]) {
      assert Ends(h, args[i + 1], trace[i + 1], values[i + 1], trace[i + 2]);
    }
  }

  lemma InTurnCons<N, W>(h: Host<N, W>, args: seq<Exp<N>>, first: Moment<N, W>, v: Exp<N>,
                         values: seq<Exp<N>>, trace: seq<Moment<N, W>>)
    requires args != [] && InTurn(h, args[1..], values, trace) && Ends(h, args[0], first, v, trace[0])
    ensures InTurn(h, args, [v] + values, [first] + trace)
  {
    var vs, tr := [v] + values, [first] + trace;
    forall i | 0 <= i < |args| ensures Ends(h, args[i], tr[i], vs[i], tr[i + 1]) {
      assert i == 0 || Ends(h, args[1..][i - 1], trace[i - 1], values[i - 1], trace[i]);
    }
  }

  lemma {:induction false} AllOfTrace<N, W>(h: Host<N, W>, args: seq<Exp<N>>, values: seq<Exp<N>>, trace: seq<Moment<N, W>>)
    returns (m: nat)
    requires InTurn(h, args, values, trace)
    ensures forall n: nat :: n >= m ==>
      EvalAll(h, n, args, trace[0].env, trace[0].world) == Out(Ok(values), Last(trace).env, Last(trace).world)
    decreases |args|
  {
    if args == [] {
      m := 0;
    } else {
      InTurnTail(h, args, values, trace);
      var m0 := Enough(h, args[0], trace[0].env, trace[0].world, Out(Ok(values[0]), trace[1].env, trace[1].world));
      var m1 := AllOfTrace(h, args[1..], values[1..], trace[1..]);
      m := m0 + m1;
      assert [values[0]] + values[1..] == values;
    }
  }

  // ----- and, or -----

  /** The evaluation that decides: it fails, yields the value that stops the form, or is no boolean. */
  ghost predicate Stops<N(!new), W>(h: Host<N, W>, e: Exp<N>, go: bool, complaint: string, at: Moment<N, W>, out: Out<N, W, Exp<N>>) {
    || (Yields(h, e, at.env, at.world, out) && (out.result.Err? || out.result.value == Bool(!go)))
    || (out.Out? && out.result == Err(complaint) && exists v :: Ends(h, e, at, v, Moment(out.env, out.world)) && !v.Bool?)
  }

  function Repeat<N>(b: bool, n: nat): seq<Exp<N>> {
    seq(n, _ => Bool(b))
  }

  /**
   * Evaluated in turn, either all arguments yield `go`, and so does the form; or the first one that does not decides.
   */
  ghost predicate Decides<N(!new), W(!new)>(h: Host<N, W>, args: seq<Exp<N>>, go: bool, complaint: string,
                                            at: Moment<N, W>, out: Out<N, W, Exp<N>>) {
    || (exists trace :: InTurn(h, args, Repeat(go, |args|), trace) && trace[0] == at
                        && out == Out(Ok(Bool(go)), Last(trace).env, Last(trace).world))
    || (exists k, trace :: StopsAt(h, args, k, trace, go, complaint, at, out))
  }

  ghost predicate StopsAt<N(!new), W>(h: Host<N, W>, args: seq<Exp<N>>, k: nat, trace: seq<Moment<N, W>>, go: bool, complaint: string,
                                at: Moment<N, W>, out: Out<N, W, Exp<N>>) {
    && k < |args| && InTurn(h, args[..k], Repeat(go, k), trace) && trace[0] == at
    && Stops(h, args[k], go, complaint, trace[k], out)
  }

  lemma RepeatMore<N>(b: bool, n: nat)
    ensures [Bool(b)] + Repeat<N>(b, n) == Repeat(b, n + 1) && Repeat<N>(b, n + 1)[1..] == Repeat(b, n)
  {
  }

  /** `Decides` argument by argument. */
  lemma DecidesFirst<N(!new), W(!new)>(h: Host<N, W>, args: seq<Exp<N>>, go: bool, complaint: string,
                                       at: Moment<N, W>, out: Out<N, W, Exp<N>>)
    requires args != []
    ensures Decides(h, args, go, complaint, at, out) <==>
      || Stops(h, args[0], go, complaint, at, out)
      || exists next :: Ends(h, args[0], at, Bool(go), next) && Decides(h, args[1..], go, complaint, next, out)
  {
    RepeatMore<N>(go, |args| - 1);
    if trace :| InTurn(h, args, Repeat(go, |args|), trace) && trace[0] == at
                && out == Out(Ok(Bool(go)), Last(trace).env, Last(trace).world) {
      InTurnTail(h, args, Repeat(go, |args|), trace);
      assert Last(trace[1..]) == Last(trace);
      assert Decides(h, args[1..], go, complaint, trace[1], out);
    }
    if k: nat, trace :| StopsAt(h, args, k, trace, go, complaint, at, out) {
      StopsAtFirst(h, args, k, trace, go, complaint, at, out);
    }
    if Stops(h, args[0], go, complaint, at, out) {
      assert StopsAt(h, args, 0, [at], go, complaint, at, out);
    }
    if next :| Ends(h, args[0], at, Bool(go), next) && Decides(h, args[1..], go, complaint, next, out) {
      DecidesCons(h, args, go, complaint, at, next, out);
    }
  }

  lemma StopsAtFirst<N(!new), W(!new)>(h: Host<N, W>, args: seq<Exp<N>>, k: nat, trace: seq<Moment<N, W>>, go: bool, complaint: string,
                                       at: Moment<N, W>, out: Out<N, W, Exp<N>>)
    requires StopsAt(h, args, k, trace, go, complaint, at, out)
    ensures || Stops(h, args[0], go, complaint, at, out)
            || exists next :: Ends(h, args[0], at, Bool(go), next) && Decides(h, args[1..], go, complaint, next, out)
  {
    if k > 0 {
      RepeatMore<N>(go, k - 1);
      InTurnTail(h, args[..k], Repeat(go, k), trace);
      assert args[..k][1..] == args[1..][..k - 1];
      assert StopsAt(h, args[1..], k - 1, trace[1..], go, complaint, trace[1], out);
    }
  }

  lemma StopsLater<N(!new), W(!new)>(h: Host<N, W>, args: seq<Exp<N>>, k: nat, trace: seq<Moment<N, W>>, go: bool, complaint: string,
                                     at: Moment<N, W>, next: Moment<N, W>, out: Out<N, W, Exp<N>>)
    requires args != [] && Ends(h, args[0], at, Bool(go), next) && StopsAt(h, args[1..], k, trace, go, complaint, next, out)
    ensures StopsAt(h, args, k + 1, [at] + trace, go, complaint, at, out)
  {
    RepeatMore<N>(go, k);
    assert args[..k + 1][1..] == args[1..][..k];
    InTurnCons(h, args[..k + 1], at, Bool(go), Repeat(go, k), trace);
  }

  lemma DecidesCons<N(!new), W(!new)>(h: Host<N, W>, args: seq<Exp<N>>, go: bool, complaint: string,
                                      at: Moment<N, W>, next: Moment<N, W>, out: Out<N, W, Exp<N>>)
    requires args != [] && Ends(h, args[0], at, Bool(go), next) && Decides(h, args[1..], go, complaint, next, out)
    ensures Decides(h, args, go, complaint, at, out)
  {
    if trace :| InTurn(h, args[1..], Repeat(go, |args| - 1), trace) && trace[0] == next
                && out == Out(Ok(Bool(go)), Last(trace).env, Last(trace).world) {
      RepeatMore<N>(go, |args| - 1);
      InTurnCons(h, args, at, Bool(go), Repeat(go, |args| - 1), trace);
      assert Last([at] + trace) == Last(trace);
    } else {
      var k: nat, trace :| StopsAt(h, args[1..], k, trace, go, complaint, next, out);
      StopsLater(h, args, k, trace, go, complaint, at, next, out);
    }
  }

  lemma DecidesNone<N(!new), W(!new)>(h: Host<N, W>, go: bool, complaint: string, at: Moment<N, W>, out: Out<N, W, Exp<N>>)
    ensures Decides(h, [], go, complaint, at, out) <==> out == Out(Ok(Bool(go)), at.env, at.world)
  {
    assert InTurn(h, [], Repeat<N>(go, 0), [at]);
  }

  /** The two forms: `and` goes on while its arguments are true, `or` while they are false. */
  function Logic(go: bool): string {
    if go then "and" else "or"
  }

  function Complaint(go: bool): string {
    if go then "and expects booleans" else "or expects booleans"
  }

  /** One argument of such a form, in terms of fuel. */
  lemma LogicStep<N, W>(h: Host<N, W>, n: nat, go: bool, args: seq<Exp<N>>, env: Env<N>, w: W)
    requires args != []
    ensures var first := Eval(h, n, args[0], env, w);
      Eval(h, n + 1, Form(Logic(go), args), env, w) ==
        if !first.Good() then first
        else if !first.result.value.Bool? then Out(Err(Complaint(go)), first.env, first.world)
        else if first.result.value == Bool(!go) then first
        else Eval(h, n + 1, Form(Logic(go), args[1..]), first.env, first.world)
  {
    EvalOfForm(h, n, Logic(go), args, env, w);
    var first := Eval(h, n, args[0], env, w);
    if first.Good() {
      EvalOfForm(h, n, Logic(go), args[1..], first.env, first.world);
    }
  }

  lemma LogicForward<N(!new), W(!new)>(h: Host<N, W>, n: nat, go: bool, args: seq<Exp<N>>, at: Moment<N, W>, out: Out<N, W, Exp<N>>)
    requires args != [] && out.Out? && Eval(h, n + 1, Form(Logic(go), args), at.env, at.world) == out
    ensures || Stops(h, args[0], go, Complaint(go), at, out)
            || exists next: Moment<N, W> :: Ends(h, args[0], at, Bool(go), next)
                 && Yields(h, Form(Logic(go), args[1..]), next.env, next.world, out)
  {
    LogicStep(h, n, go, args, at.env, at.world);
    var first := Eval(h, n, args[0], at.env, at.world);
    assert Yields(h, args[0], at.env, at.world, first);
    if first.Good() {
      var next := Moment(first.env, first.world);
      assert Ends(h, args[0], at, first.result.value, next);
      if first.result.value == Bool(go) {
        assert Eval(h, n + 1, Form(Logic(go), args[1..]), next.env, next.world) == out;
      }
    }
  }

  lemma LogicStops<N(!new), W>(h: Host<N, W>, go: bool, args: seq<Exp<N>>, at: Moment<N, W>, out: Out<N, W, Exp<N>>)
    requires args != [] && Stops(h, args[0], go, Complaint(go), at, out)
    ensures Yields(h, Form(Logic(go), args), at.env, at.world, out)
  {
    if Yields(h, args[0], at.env, at.world, out) && (out.result.Err? || out.result.value == Bool(!go)) {
      var n := Enough(h, args[0], at.env, at.world, out);
      LogicStep(h, n, go, args, at.env, at.world);
      assert Eval(h, n + 1, Form(Logic(go), args), at.env, at.world) == out;
    } else {
      var v :| Ends(h, args[0], at, v, Moment(out.env, out.world)) && !v.Bool?;
      var n := Enough(h, args[0], at.env, at.world, Out(Ok(v), out.env, out.world));
      LogicStep(h, n, go, args, at.env, at.world);
      assert Eval(h, n + 1, Form(Logic(go), args), at.env, at.world) == out;
    }
  }

  lemma LogicGoesOn<N, W>(h: Host<N, W>, go: bool, args: seq<Exp<N>>, at: Moment<N, W>, next: Moment<N, W>, out: Out<N, W, Exp<N>>)
    requires args != [] && Ends(h, args[0], at, Bool(go), next)
    requires Yields(h, Form(Logic(go), args[1..]), next.env, next.world, out)
    ensures Yields(h, Form(Logic(go), args), at.env, at.world, out)
  {
    var m := Enough(h, args[0], at.env, at.world, Out(Ok(Bool(go)), next.env, next.world));
    var k := Enough(h, Form(Logic(go), args[1..]), next.env, next.world, out);
    LogicStep(h, m + k, go, args, at.env, at.world);
    assert Eval(h, m + k + 1, Form(Logic(go), args), at.env, at.world) == out;
  }

  lemma LogicFirst<N(!new), W(!new)>(h: Host<N, W>, go: bool, args: seq<Exp<N>>, at: Moment<N, W>, out: Out<N, W, Exp<N>>)
    requires args != []
    ensures Yields(h, Form(Logic(go), args), at.env, at.world, out) <==>
      || Stops(h, args[0], go, Complaint(go), at, out)
      || exists next: Moment<N, W> :: Ends(h, args[0], at, Bool(go), next)
           && Yields(h, Form(Logic(go), args[1..]), next.env, next.world, out)
  {
    if Yields(h, Form(Logic(go), args), at.env, at.world, out) {
      var n := Enough(h, Form(Logic(go), args), at.env, at.world, out);
      LogicForward(h, n, go, args, at, out);
    }
    if Stops(h, args[0], go, Complaint(go), at, out) {
      LogicStops(h, go, args, at, out);
    }
    if next: Moment<N, W> :| Ends(h, args[0], at, Bool(go), next)
                             && Yields(h, Form(Logic(go), args[1..]), next.env, next.world, out) {
      LogicGoesOn(h, go, args, at, next, out);
    }
  }

  lemma LogicNone<N, W>(h: Host<N, W>, go: bool, at: Moment<N, W>, out: Out<N, W, Exp<N>>)
    ensures Yields(h, Form(Logic(go), []), at.env, at.world, out) <==> out == Out(Ok(Bool(go)), at.env, at.world)
  {
    var r := Out(Ok(Bool(go)), at.env, at.world);
    EvalOfForm(h, 0, Logic(go), [], at.env, at.world);
    assert Eval(h, 1, Form(Logic(go), []), at.env, at.world) == r;
    assert Yields(h, Form(Logic(go), []), at.env, at.world, r);
    if Yields(h, Form(Logic(go), []), at.env, at.world, out) {
      YieldsOnce(h, Form(Logic(go), []), at.env, at.world, out, r);
    }
  }

  /** `and` and `or`, for any number of arguments and every way to end. */
  lemma {:induction false} LogicLaw<N(!new), W(!new)>(h: Host<N, W>, go: bool, args: seq<Exp<N>>, at: Moment<N, W>, out: Out<N, W, Exp<N>>)
    ensures Yields(h, Form(Logic(go), args), at.env, at.world, out) <==> Decides(h, args, go, Complaint(go), at, out)
    decreases |args|
  {
    if args == [] {
      LogicNone(h, go, at, out);
      DecidesNone(h, go, Complaint(go), at, out);
    } else {
      LogicFirst(h, go, args, at, out);
      DecidesFirst(h, args, go, Complaint(go), at, out);
      forall next: Moment<N, W>
        ensures Yields(h, Form(Logic(go), args[1..]), next.env, next.world, out) <==> Decides(h, args[1..], go, Complaint(go), next, out)
      {
        LogicLaw(h, go, args[1..], next, out);
      }
    }
  }

  /** The arguments before `k` evaluate in turn to the booleans `go`, and argument `k` to the other one. */
  ghost predicate FirstOther<N, W>(h: Host<N, W>, args: seq<Exp<N>>, go: bool, k: nat, trace: seq<Moment<N, W>>) {
    k < |args| && InTurn(h, args[..k + 1], Repeat(go, k) + [Bool(!go)], trace)
  }

  /** `and` is true exactly when all arguments, evaluated in turn, are true: no arguments at all included. */
  lemma AndIsTrue<N(!new), W(!new)>(h: Host<N, W>, args: seq<Exp<N>>, at: Moment<N, W>, after: Moment<N, W>)
    ensures Yields(h, Form("and", args), at.env, at.world, Out(Ok(Bool(true)), after.env, after.world)) <==>
      exists trace :: InTurn(h, args, Repeat(true, |args|), trace) && trace[0] == at && Last(trace) == after
  {
    LogicSame(h, true, args, at, after);
  }

  /** `and` is false exactly when the first argument that is not true is false; those behind it are not evaluated. */
  lemma AndIsFalse<N(!new), W(!new)>(h: Host<N, W>, args: seq<Exp<N>>, at: Moment<N, W>, after: Moment<N, W>)
    ensures Yields(h, Form("and", args), at.env, at.world, Out(Ok(Bool(false)), after.env, after.world)) <==>
      exists k: nat, trace :: FirstOther(h, args, true, k, trace) && trace[0] == at && Last(trace) == after
  {
    LogicOther(h, true, args, at, after);
  }

  /** `or` is false exactly when all arguments are false, no arguments at all included. */
  lemma OrIsFalse<N(!new), W(!new)>(h: Host<N, W>, args: seq<Exp<N>>, at: Moment<N, W>, after: Moment<N, W>)
    ensures Yields(h, Form("or", args), at.env, at.world, Out(Ok(Bool(false)), after.env, after.world)) <==>
      exists trace :: InTurn(h, args, Repeat(false, |args|), trace) && trace[0] == at && Last(trace) == after
  {
    LogicSame(h, false, args, at, after);
  }

  /** `or` is true exactly when the first argument that is not false is true. */
  lemma OrIsTrue<N(!new), W(!new)>(h: Host<N, W>, args: seq<Exp<N>>, at: Moment<N, W>, after: Moment<N, W>)
    ensures Yields(h, Form("or", args), at.env, at.world, Out(Ok(Bool(true)), after.env, after.world)) <==>
      exists k: nat, trace :: FirstOther(h, args, false, k, trace) && trace[0] == at && Last(trace) == after
  {
    LogicOther(h, false, args, at, after);
  }

  lemma LogicSame<N(!new), W(!new)>(h: Host<N, W>, go: bool, args: seq<Exp<N>>, at: Moment<N, W>, after: Moment<N, W>)
    ensures Yields(h, Form(Logic(go), args), at.env, at.world, Out(Ok(Bool(go)), after.env, after.world)) <==>
      exists trace :: InTurn(h, args, Repeat(go, |args|), trace) && trace[0] == at && Last(trace) == after
  {
    LogicLaw(h, go, args, at, Out(Ok(Bool(go)), after.env, after.world));
  }

  lemma LogicOther<N(!new), W(!new)>(h: Host<N, W>, go: bool, args: seq<Exp<N>>, at: Moment<N, W>, after: Moment<N, W>)
    ensures Yields(h, Form(Logic(go), args), at.env, at.world, Out(Ok(Bool(!go)), after.env, after.world)) <==>
      exists k: nat, trace :: FirstOther(h, args, go, k, trace) && trace[0] == at && Last(trace) == after
  {
    var out := Out(Ok(Bool(!go)), after.env, after.world);
    LogicLaw(h, go, args, at, out);
    if Decides(h, args, go, Complaint(go), at, out) {
      var k: nat, trace :| StopsAt(h, args, k, trace, go, Complaint(go), at, out);
      OtherFromStop(h, args, go, k, trace, after);
      assert trace + [after] != [] && Last(trace + [after]) == after;
    }
    if k: nat, trace :| FirstOther(h, args, go, k, trace) && trace[0] == at && Last(trace) == after {
      StopFromOther(h, args, go, k, trace);
      assert StopsAt(h, args, k, trace[..k + 1], go, Complaint(go), at, out);
    }
  }

  lemma OtherFromStop<N, W>(h: Host<N, W>, args: seq<Exp<N>>, go: bool, k: nat, trace: seq<Moment<N, W>>, after: Moment<N, W>)
    requires k < |args| && InTurn(h, args[..k], Repeat(go, k), trace) && Ends(h, args[k], trace[k], Bool(!go), after)
    ensures FirstOther(h, args, go, k, trace + [after])
  {
    var xs, vs, tr := args[..k + 1], Repeat<N>(go, k) + [Bool(!go)], trace + [after];
    forall i | 0 <= i < |xs| ensures Ends(h, xs[i], tr[i], vs[i], tr[i + 1]) {
      assert i == k || Ends(h, args[..k][i], trace[i], Repeat<N>(go, k)[i], trace[i + 1]);
    }
  }

  lemma StopFromOther<N, W>(h: Host<N, W>, args: seq<Exp<N>>, go: bool, k: nat, trace: seq<Moment<N, W>>)
    requires FirstOther(h, args, go, k, trace)
    ensures InTurn(h, args[..k], Repeat(go, k), trace[..k + 1]) && Ends(h, args[k], trace[k], Bool(!go), Last(trace))
  {
    var xs, vs := args[..k + 1], Repeat<N>(go, k) + [Bool(!go)];
    forall i | 0 <= i < k ensures Ends(h, args[..k][i], trace[..k + 1][i], Repeat<N>(go, k)[i], trace[..k + 1][i + 1]) {
      assert Ends(h, xs[i], trace[i], vs[i], trace[i + 1]);
    }
    assert Ends(h, xs[k], trace[k], vs[k], trace[k + 1]);
  }
}
