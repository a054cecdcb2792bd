/** Values of the Lisp dialect. `N` stands for 64-bit floating point numbers, which stay opaque. */
module Lisp {

  datatype Key = KeyString(s: string) | KeyNumber(n: int) | KeyBool(b: bool)

  datatype Exp<N> =
    | Bool(b: bool)
    | Symbol(name: string)
    | Number(n: N)
    | String(text: string)
    | List(items: seq<Exp<N>>)
    | Map(entries: map<Key, Exp<N>>)
    | Func(id: string)
    | Lambda(params: Exp<N>, body: Exp<N>, captured: map<string, Exp<N>>)
    | Syscall(command: seq<string>)
}
