/**
 * The evaluator. Fuel bounds the depth of evaluation and the rounds of loops; running out of it stands for an evaluation
 * that has not ended yet. `W` is the state of the world that system calls read and change.
 */
module Evaluator {
  import opened Basics
  import opened Lisp

  type Env<N> = map<string, Exp<N>>

  datatype Result<+T> = Ok(value: T) | Err(reason: string)

  datatype Out<N, W, V> = OutOfFuel | Out(result: Result<V>, env: Env<N>, world: W) {
    /** Ended with a value. */
    predicate Good() {
      Out? && result.Ok?
    }

    /** Passes an error, or the lack of fuel, on. */
    function Failure<U>(): Out<N, W, U>
      requires !Good()
    {
      if OutOfFuel? then OutOfFuel else Out(Err(result.reason), env, world)
    }
  }

  /** Builtin functions, system calls and everything about numbers and printing. */
  datatype Host<!N, !W> = Host(
    apply: (string, seq<Exp<N>>) -> Result<Exp<N>>,
    runCmd: (seq<string>, W) -> (Option<string>, W),
    keyNumber: N -> int,
    show: Exp<N> -> string)

  function Fail<N, W, V>(reason: string, env: Env<N>, w: W): Out<N, W, V> {
    Out(Err(reason), env, w)
  }

  // ----- Helpers -----

  function ExpToKey<N, W>(h: Host<N, W>, e: Exp<N>): Result<Key> {
    match e
    case String(s) => Ok(KeyString(s))
    case Number(n) => Ok(KeyNumber(h.keyNumber(n)))
    case Bool(b) => Ok(KeyBool(b))
    case _ => Err("only strings, numbers, and bools can be map keys")
  }

  function SymbolNames<N>(items: seq<Exp<N>>): Result<seq<string>> {
    if items == [] then Ok([])
    else if !items[0].Symbol? then Err("expected symbols in the argument list")
    else
      match SymbolNames(items[1..])
      case Ok(names) => Ok([items[0].name] + names)
      case Err(reason) => Err(reason)
  }

  function BindAll<N>(env: Env<N>, names: seq<string>, values: seq<Exp<N>>): Env<N>
    requires |names| == |values|
    decreases |names|
  {
    if names == [] then env else BindAll(env[names[0] := values[0]], names[1..], values[1..])
  }

  /** `env_for_lambda` */
  function EnvForLambda<N>(params: Exp<N>, args: seq<Exp<N>>, outer: Env<N>): Result<Env<N>> {
    if !params.List? then Err("expected args form to be a list")
    else
      match SymbolNames(params.items)
      case Err(reason) => Err(reason)
      case Ok(names) =>
        if |names| != |args| then Err("wrong number of arguments") else Ok(BindAll(outer, names, args))
  }

  /** `eval_lambda_args`: a closure keeps a copy of the environment. */
  function MakeLambda<N>(args: seq<Exp<N>>, env: Env<N>): Result<Exp<N>> {
    if |args| < 1 then Err("expected args form")
    else if |args| < 2 then Err("expected second form")
    else if |args| > 2 then Err("fn definition can only have two forms ")
    else Ok(Lambda(args[0], args[1], env))
  }

  /** The words of a system call. */
  function CommandWords<N, W>(h: Host<N, W>, values: seq<Exp<N>>): Result<seq<string>> {
    if values == [] then Ok([])
    else
      var v := values[0];
      if v.Func? || v.Lambda? || v.Syscall? then
        Err("sys args must evaluate to symbols, numbers, bools, strings, lists, or maps")
      else
        var word := if v.Symbol? then v.name else if v.String? then v.text else h.show(v);
        match CommandWords(h, values[1..])
        case Ok(words) => Ok([word] + words)
        case Err(reason) => Err(reason)
  }

  // ----- Evaluation -----

  function Eval<N, W>(h: Host<N, W>, n: nat, e: Exp<N>, env: Env<N>, w: W): Out<N, W, Exp<N>>
    decreases n, 0, 0
  {
    if n == 0 then OutOfFuel
    else
      match e
      case Bool(_) => Out(Ok(e), env, w)
      case Number(_) => Out(Ok(e), env, w)
      case String(_) => Out(Ok(e), env, w)
      case Map(_) => Out(Ok(e), env, w)
      case Symbol(k) => Out(if k in env then Ok(env[k]) else Err("unexpected symbol k='" + k + "'"), env, w)
      case List(items) =>
        if items == [] then Fail("expected a non-empty list", env, w)
        else if items[0].Symbol? then EvalForm(h, n - 1, items[0].name, items[1..], env, w)
        else EvalCall(h, n - 1, items[0], items[1..], env, w)
      case _ => Fail("unexpected form", env, w)
  }

  /** A list whose head is a symbol: a special form or a call. */
  function EvalForm<N, W>(h: Host<N, W>, n: nat, s: string, args: seq<Exp<N>>, env: Env<N>, w: W): Out<N, W, Exp<N>>
    decreases n, 3, 0
  {
    if s == "if" then EvalIf(h, n, args, env, w)
    else if s == "def" then EvalDef(h, n, args, env, w)
    else if s == "fn" then Out(MakeLambda(args, env), env, w)
    else if s == "sys" then EvalSys(h, n, args, env, w)
    else if s == "quote" then Out(if args == [] then Err("expected form to quote") else Ok(args[0]), env, w)
    else if s == "and" then EvalAnd(h, n, args, env, w)
    else if s == "or" then EvalOr(h, n, args, env, w)
    else if s == "for" then EvalForLoop(h, n, args, env, w)
    else if s == "append" then EvalAppend(h, n, args, env, w)
    else if s == "pop" then EvalPop(args, env, w)
    else if s == "mset" then EvalMset(h, n, args, env, w)
    else if s == "mdel" then EvalMdel(h, n, args, env, w)
    else if s == "do" then EvalDo(h, n, args, List([]), env, w)
    else if s == "error" then EvalError(h, n, args, env, w)
    else EvalCall(h, n, Symbol(s), args, env, w)
  }

  /** Arguments from left to right, up to the first error. */
  function EvalAll<N, W>(h: Host<N, W>, n: nat, args: seq<Exp<N>>, env: Env<N>, w: W): Out<N, W, seq<Exp<N>>>
    decreases n, 1, |args|
  {
    if args == [] then Out(Ok([]), env, w)
    else
      var first := Eval(h, n, args[0], env, w);
      if !first.Good() then first.Failure()
      else
        var rest := EvalAll(h, n, args[1..], first.env, first.world);
        if !rest.Good() then rest.Failure()
        else Out(Ok([first.result.value] + rest.result.value), rest.env, rest.world)
  }

  function EvalIf<N, W>(h: Host<N, W>, n: nat, args: seq<Exp<N>>, env: Env<N>, w: W): Out<N, W, Exp<N>>
    decreases n, 2, 0
  {
    if args == [] then Fail("expected test form", env, w)
    else
      var test := Eval(h, n, args[0], env, w);
      if !test.Good() then test
      else if !test.result.value.Bool? then
        Fail("unexpected test form='" + h.show(args[0]) + "'", test.env, test.world)
      else
        var idx := if test.result.value.b then 1 else 2;
        if |args| <= idx then Fail(if idx == 1 then "expected form idx=1" else "expected form idx=2", test.env, test.world)
        else Eval(h, n, args[idx], test.env, test.world)
  }

  function EvalDef<N, W>(h: Host<N, W>, n: nat, args: seq<Exp<N>>, env: Env<N>, w: W): Out<N, W, Exp<N>>
    decreases n, 2, 0
  {
    if |args| < 1 then Fail("expected first form", env, w)
    else if !args[0].Symbol? then Fail("expected first form to be a symbol", env, w)
    else if |args| < 2 then Fail("expected second form", env, w)
    else if |args| > 2 then Fail("def can only have two forms ", env, w)
    else
      var value := Eval(h, n, args[1], env, w);
      if !value.Good() then value
      else Out(Ok(args[0]), value.env[args[0].name := value.result.value], value.world)
  }

  function EvalSys<N, W>(h: Host<N, W>, n: nat, args: seq<Exp<N>>, env: Env<N>, w: W): Out<N, W, Exp<N>>
    decreases n, 2, 0
  {
    if args == [] then Fail("sys expects at least one argument", env, w)
    else
      var values := EvalAll(h, n, args, env, w);
      if !values.Good() then values.Failure()
      else
        match CommandWords(h, values.result.value)
        case Err(reason) => Fail(reason, values.env, values.world)
        case Ok(words) =>
          var (error, w') := h.runCmd(words, values.world);
          if error.Some? then Fail(error.value, values.env, w') else Out(Ok(Syscall(words)), values.env, w')
  }

  function EvalAnd<N, W>(h: Host<N, W>, n: nat, args: seq<Exp<N>>, env: Env<N>, w: W): Out<N, W, Exp<N>>
    decreases n, 2, |args|
  {
    if args == [] then Out(Ok(Bool(true)), env, w)
    else
      var first := Eval(h, n, args[0], env, w);
      if !first.Good() then first
      else if !first.result.value.Bool? then Fail("and expects booleans", first.env, first.world)
      else if !first.result.value.b then first
      else EvalAnd(h, n, args[1..], first.env, first.world)
  }

  function EvalOr<N, W>(h: Host<N, W>, n: nat, args: seq<Exp<N>>, env: Env<N>, w: W): Out<N, W, Exp<N>>
    decreases n, 2, |args|
  {
    if args == [] then Out(Ok(Bool(false)), env, w)
    else
      var first := Eval(h, n, args[0], env, w);
      if !first.Good() then first
      else if !first.result.value.Bool? then Fail("or expects booleans", first.env, first.world)
      else if first.result.value.b then first
      else EvalOr(h, n, args[1..], first.env, first.world)
  }

  function EvalForLoop<N, W>(h: Host<N, W>, n: nat, args: seq<Exp<N>>, env: Env<N>, w: W): Out<N, W, Exp<N>>
    decreases n, 2, 1
  {
    if |args| < 1 then Fail("expected loop condition", env, w)
    else if |args| < 2 then Fail("expected loop body", env, w)
    else Loop(h, n, args[0], args[1], env, w)
  }

  function Loop<N, W>(h: Host<N, W>, n: nat, cond: Exp<N>, body: Exp<N>, env: Env<N>, w: W): Out<N, W, Exp<N>>
    decreases n, 2, 0
  {
    var test := Eval(h, n, cond, env, w);
    if !test.Good() then test
    else if !test.result.value.Bool? then Fail("loop condition must be boolean", test.env, test.world)
    else if !test.result.value.b then test
    else
      var round := Eval(h, n, body, test.env, test.world);
      if !round.Good() then round
      else if n == 0 then OutOfFuel
      else Loop(h, n - 1, cond, body, round.env, round.world)
  }

  function EvalAppend<N, W>(h: Host<N, W>, n: nat, args: seq<Exp<N>>, env: Env<N>, w: W): Out<N, W, Exp<N>>
    decreases n, 2, 0
  {
    if |args| < 1 then Fail("expected symbol for append", env, w)
    else if |args| < 2 then Fail("expected value to append", env, w)
    else if !args[0].Symbol? then Fail("append requires a variable name (symbol)", env, w)
    else
      var value := Eval(h, n, args[1], env, w);
      var name := args[0].name;
      if !value.Good() then value
      else if name !in value.env then Fail("undefined variable '" + name + "'", value.env, value.world)
      else if !value.env[name].List? then Fail("'" + name + "' is not a list", value.env, value.world)
      else
        var longer := List(value.env[name].items + [value.result.value]);
        Out(Ok(longer), value.env[name := longer], value.world)
  }

  function EvalPop<N, W>(args: seq<Exp<N>>, env: Env<N>, w: W): Out<N, W, Exp<N>> {
    if |args| < 1 then Fail("expected symbol for pop", env, w)
    else if !args[0].Symbol? then Fail("pop requires a variable name (symbol)", env, w)
    else
      var name := args[0].name;
      if name !in env then Fail("undefined variable '" + name + "'", env, w)
      else if !env[name].List? then Fail("'" + name + "' is not a list", env, w)
      else
        var items := env[name].items;
        if items == [] then Fail("cannot pop from an empty list", env, w)
        else Out(Ok(items[|items| - 1]), env[name := List(items[..|items| - 1])], w)
  }

  function EvalMset<N, W>(h: Host<N, W>, n: nat, args: seq<Exp<N>>, env: Env<N>, w: W): Out<N, W, Exp<N>>
    decreases n, 2, 0
  {
    if |args| < 1 then Fail("expected symbol for mset", env, w)
    else if |args| < 2 then Fail("expected key for mset", env, w)
    else if |args| < 3 then Fail("expected value for mset", env, w)
    else if !args[0].Symbol? then Fail("mset requires a variable name (symbol)", env, w)
    else
      var k := Eval(h, n, args[1], env, w);
      if !k.Good() then k
      else
        match ExpToKey(h, k.result.value)
        case Err(reason) => Fail(reason, k.env, k.world)
        case Ok(key) =>
          var value := Eval(h, n, args[2], k.env, k.world);
          var name := args[0].name;
          if !value.Good() then value
          else if name !in value.env then Fail("undefined variable '" + name + "'", value.env, value.world)
          else if !value.env[name].Map? then Fail("'" + name + "' is not a map", value.env, value.world)
          else
            var entries := value.env[name].entries[key := value.result.value];
            Out(value.result, value.env[name := Map(entries)], value.world)
  }

  function EvalMdel<N, W>(h: Host<N, W>, n: nat, args: seq<Exp<N>>, env: Env<N>, w: W): Out<N, W, Exp<N>>
    decreases n, 2, 0
  {
    if |args| < 1 then Fail("expected symbol for mdel", env, w)
    else if |args| < 2 then Fail("expected key for mdel", env, w)
    else if !args[0].Symbol? then Fail("mdel requires a variable name (symbol)", env, w)
    else
      var k := Eval(h, n, args[1], env, w);
      var name := args[0].name;
      if !k.Good() then k
      else
        match ExpToKey(h, k.result.value)
        case Err(reason) => Fail(reason, k.env, k.world)
        case Ok(key) =>
          if name !in k.env then Fail("undefined variable '" + name + "'", k.env, k.world)
          else if !k.env[name].Map? then Fail("'" + name + "' is not a map", k.env, k.world)
          else Out(Ok(Bool(true)), k.env[name := Map(k.env[name].entries - {key})], k.world)
  }

  /** The forms one after the other; the value is that of the last one. */
  function EvalDo<N, W>(h: Host<N, W>, n: nat, args: seq<Exp<N>>, last: Exp<N>, env: Env<N>, w: W): Out<N, W, Exp<N>>
    decreases n, 2, |args|
  {
    if args == [] then Out(Ok(last), env, w)
    else
      var first := Eval(h, n, args[0], env, w);
      if !first.Good() then first
      else EvalDo(h, n, args[1..], first.result.value, first.env, first.world)
  }

  /** Runs the handler bound to `error`, whatever becomes of it, and fails with the message. */
  function EvalError<N, W>(h: Host<N, W>, n: nat, args: seq<Exp<N>>, env: Env<N>, w: W): Out<N, W, Exp<N>>
    decreases n, 2, 0
  {
    if args == [] then Fail("error requires a message", env, w)
    else
      var message := Eval(h, n, args[0], env, w);
      if !message.Good() then message
      else
        var value := message.result.value;
        var reason := if value.String? then value.text else h.show(value);
        match Handler(message.env, value)
        case None => Fail(reason, message.env, message.world)
        case Some((body, inner)) =>
          var handled := Eval(h, n, body, inner, message.world);
          if handled.OutOfFuel? then OutOfFuel else Fail(reason, message.env, handled.world)
  }

  /** The body and the environment of the error handler, if it is a closure that takes one argument. */
  function Handler<N>(env: Env<N>, message: Exp<N>): Option<(Exp<N>, Env<N>)> {
    if "error" in env && env["error"].Lambda? then
      var f := env["error"];
      match EnvForLambda(f.params, [message], env + f.captured)
      case Ok(inner) => Some((f.body, inner))
      case Err(_) => None
    else None
  }

  /** A call: the head first, then the arguments, then the body in an environment of its own. */
  function EvalCall<N, W>(h: Host<N, W>, n: nat, head: Exp<N>, args: seq<Exp<N>>, env: Env<N>, w: W): Out<N, W, Exp<N>>
    decreases n, 2, 0
  {
    var f := Eval(h, n, head, env, w);
    if !f.Good() then f
    else if !f.result.value.Func? && !f.result.value.Lambda? then Fail("first form must be a function", f.env, f.world)
    else
      var values := EvalAll(h, n, args, f.env, f.world);
      if !values.Good() then values.Failure()
      else if f.result.value.Func? then Out(h.apply(f.result.value.id, values.result.value), values.env, values.world)
      else EvalBody(h, n, f.result.value, values.result.value, values.env, values.world)
  }

  /** Runs a closure; what it does to its own environment is forgotten. */
  function EvalBody<N, W>(h: Host<N, W>, n: nat, f: Exp<N>, values: seq<Exp<N>>, env: Env<N>, w: W): Out<N, W, Exp<N>>
    requires f.Lambda?
    decreases n, 1, 0
  {
    match EnvForLambda(f.params, values, env + f.captured)
    case Err(reason) => Fail(reason, env, w)
    case Ok(inner) =>
      var r := Eval(h, n, f.body, inner, w);
      if r.OutOfFuel? then OutOfFuel else Out(r.result, env, r.world)
  }
}
