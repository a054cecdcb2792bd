/** Printing an expression and reading it back. */
module RoundTrip {
  import opened Basics
  import opened Lisp
  import opened Tokenizer
  import opened Reader

  /** `Display` for expressions; `other` prints numbers, maps, functions and system calls. */
  function Print<N>(other: Exp<N> -> string, e: Exp<N>): string
    decreases e, 0
  {
    match e
    case Bool(b) => if b then "true" else "false"
    case Symbol(name) => name
    case String(text) => text
    case List(items) => "(" + PrintItems(other, items) + ")"
    case _ => other(e)
  }

  /** The elements of a list, joined by spaces. */
  function PrintItems<N>(other: Exp<N> -> string, items: seq<Exp<N>>): string
    decreases items
  {
    if items == [] then ""
    else if |items| == 1 then Print(other, items[0])
    else Print(other, items[0]) + (" " + PrintItems(other, items[1..]))
  }

  /** Words with one space between neighbours. */
  function Spaced(words: seq<string>): string {
    if words == [] then ""
    else if |words| == 1 then words[0]
    else Spaced(words[..|words| - 1]) + " " + words[|words| - 1]
  }

  lemma {:induction false} SpacedFirst(words: seq<string>)
    requires |words| >= 2
    ensures Spaced(words) == words[0] + (" " + Spaced(words[1..]))
  {
    var n := |words| - 1;
    if |words| == 2 {
      assert words[..1] == [words[0]] && words[1..] == [words[1]];
      assert Spaced(words[..1]) == words[0];
    } else {
      SpacedFirst(words[..n]);
      assert words[..n][1..] == words[1..][..n - 1];
      assert Spaced(words[1..]) == Spaced(words[1..][..n - 1]) + " " + words[n];
    }
  }

  /** A list is printed as its printed elements, with one space between neighbours, in parentheses. */
  lemma {:induction false} PrintedList<N>(other: Exp<N> -> string, items: seq<Exp<N>>, words: seq<string>)
    requires |words| == |items| && forall i :: 0 <= i < |items| ==> words[i] == Print(other, items[i])
    ensures Print(other, List(items)) == "(" + Spaced(words) + ")"
  {
    SpacedItems(other, items, words);
  }

  lemma {:induction false} SpacedItems<N>(other: Exp<N> -> string, items: seq<Exp<N>>, words: seq<string>)
    requires |words| == |items| && forall i :: 0 <= i < |items| ==> words[i] == Print(other, items[i])
    ensures PrintItems(other, items) == Spaced(words)
  {
    if |items| <= 1 {
    } else {
      SpacedItems(other, items[1..], words[1..]);
      SpacedFirst(words);
    }
  }

  // ----- Data -----

  /** A symbol the reader can give back: a word that is neither a boolean nor a number. */
  predicate LegalSymbol<N>(number: Token -> Option<N>, s: string) {
    IsWord(s) && s != "true" && s != "false" && number(s) == None
  }

  /** Nested lists of booleans, legal symbols and, if `strings` allows them, strings. */
  predicate Data<N>(number: Token -> Option<N>, e: Exp<N>, strings: bool)
    decreases e, 0
  {
    match e
    case Bool(_) => true
    case Symbol(name) => LegalSymbol(number, name)
    case String(_) => strings
    case List(items) => AllData(number, items, strings)
    case _ => false
  }

  predicate AllData<N>(number: Token -> Option<N>, items: seq<Exp<N>>, strings: bool)
    decreases items
  {
    items == [] || (Data(number, items[0], strings) && AllData(number, items[1..], strings))
  }

  // ----- The tokens of printed data -----

  function TokensOf<N>(e: Exp<N>): seq<Token>
    decreases e, 0
  {
    match e
    case Bool(b) => [if b then "true" else "false"]
    case Symbol(name) => [name]
    case List(items) => ["("] + TokensOfItems(items) + [")"]
    case _ => []
  }

  function TokensOfItems<N>(items: seq<Exp<N>>): seq<Token>
    decreases items
  {
    if items == [] then [] else TokensOf(items[0]) + TokensOfItems(items[1..])
  }

  predicate Ready(st: State) {
    st.mode == Normal && st.current == []
  }

  lemma {:induction false} FeedWord(st: State, w: string)
    requires Ready(st) && forall i :: 0 <= i < |w| ==> !IsDelimiter(w[i])
    ensures FeedAll(st, w) == st.(current := w)
  {
    if w == [] {
    } else {
      FeedWord(st, w[..|w| - 1]);
    }
  }

  /** `st` has taken in the text of `tokens`, the last of which may not be finished yet. */
  predicate Took(before: State, st: State, tokens: seq<Token>) {
    st.mode == Normal && Flush(st) == State(Normal, [], before.tokens + tokens)
  }

  lemma {:induction false} FeedPrinted<N>(number: Token -> Option<N>, other: Exp<N> -> string, e: Exp<N>, st: State)
    requires Data(number, e, false) && Ready(st)
    ensures Took(st, FeedAll(st, Print(other, e)), TokensOf(e))
    decreases e, 0
  {
    match e
    case Bool(b) => FeedWord(st, Print(other, e));
    case Symbol(name) => FeedWord(st, name);
    case List(items) =>
      var inner := PrintItems(other, items);
      var st1 := Feed(st, '(');
      var st2 := FeedAll(st1, inner);
      FeedPrintedItems(number, other, items, st1);
      FeedBracketed(st, inner);
      assert (st.tokens + ["("]) + TokensOfItems(items) + [")"] == st.tokens + (["("] + TokensOfItems(items) + [")"]);
  }

  lemma FeedBracketed(st: State, inner: string)
    ensures FeedAll(st, "(" + inner + ")") == Feed(FeedAll(Feed(st, '('), inner), ')')
  {
    FeedAppend(st, "(" + inner, ")");
    FeedFirst(st, '(', inner);
    FeedOne(FeedAll(Feed(st, '('), inner), ')');
  }

  lemma FeedSpace(before: State, st: State, tokens: seq<Token>)
    requires Took(before, st, tokens)
    ensures Ready(Feed(st, ' ')) && Feed(st, ' ').tokens == before.tokens + tokens
  {
  }

  lemma TookBoth(before: State, mid: State, st: State, xs: seq<Token>, ys: seq<Token>)
    requires mid.tokens == before.tokens + xs && Took(mid, st, ys)
    ensures Took(before, st, xs + ys)
  {
    assert (before.tokens + xs) + ys == before.tokens + (xs + ys);
  }

  lemma {:induction false} FeedPrintedItems<N>(number: Token -> Option<N>, other: Exp<N> -> string, items: seq<Exp<N>>, st: State)
    requires AllData(number, items, false) && Ready(st)
    ensures Took(st, FeedAll(st, PrintItems(other, items)), TokensOfItems(items))
    decreases items
  {
    if items == [] {
    } else {
      var first, rest := Print(other, items[0]), items[1..];
      var st1 := FeedAll(st, first);
      FeedPrinted(number, other, items[0], st);
      if rest == [] {
        assert TokensOfItems(items) == TokensOf(items[0]);
      } else {
        var st2 := Feed(st1, ' ');
        FeedSpace(st, st1, TokensOf(items[0]));
        FeedAppend(st, first, " " + PrintItems(other, rest));
        FeedFirst(st1, ' ', PrintItems(other, rest));
        FeedPrintedItems(number, other, rest, st2);
        TookBoth(st, st2, FeedAll(st2, PrintItems(other, rest)), TokensOf(items[0]), TokensOfItems(rest));
      }
    }
  }

  // ----- Reading the tokens of data -----

  lemma {:induction false} ParseTokensOf<N>(number: Token -> Option<N>, e: Exp<N>, more: seq<Token>)
    requires Data(number, e, false)
    ensures Parse(number, TokensOf(e) + more) == Done(e, more)
    decreases e, 0
  {
    var ts := TokensOf(e) + more;
    match e
    case Bool(b) => assert ts[1..] == more;
    case Symbol(name) =>
      WordIsNoDelimiter(name);
      assert ts[1..] == more;
    case List(items) =>
      assert ts[1..] == TokensOfItems(items) + ([")"] + more);
      ReadTokensOfItems(number, items, [], more);
      assert [] + items == items;
  }

  lemma WordIsNoDelimiter(w: string)
    requires IsWord(w)
    ensures w != "(" && w != ")" && w[0] != '"'
  {
    assert !IsDelimiter(w[0]);
  }

  lemma {:induction false} ReadTokensOfItems<N>(number: Token -> Option<N>, items: seq<Exp<N>>, read: seq<Exp<N>>, more: seq<Token>)
    requires AllData(number, items, false)
    ensures ReadSeq(number, TokensOfItems(items) + ([")"] + more), read) == Done(List(read + items), more)
    decreases items
  {
    if items == [] {
      assert TokensOfItems(items) + ([")"] + more) == [")"] + more && ([")"] + more)[1..] == more;
      assert read + items == read;
    } else {
      var first, rest := items[0], items[1..];
      var behind := TokensOfItems(rest) + ([")"] + more);
      assert TokensOfItems(items) + ([")"] + more) == TokensOf(first) + behind;
      ParseTokensOf(number, first, behind);
      FirstToken(number, first);
      ReadTokensOfItems(number, rest, read + [first], more);
      assert (read + [first]) + rest == read + items;
    }
  }

  lemma FirstToken<N>(number: Token -> Option<N>, e: Exp<N>)
    requires Data(number, e, false)
    ensures TokensOf(e) != [] && TokensOf(e)[0] != ")"
  {
    if e.Symbol? {
      WordIsNoDelimiter(e.name);
    }
  }

  /** Data without strings comes back from its printed form, with no token left. */
  lemma PrintThenRead<N>(number: Token -> Option<N>, other: Exp<N> -> string, e: Exp<N>)
    requires Data(number, e, false)
    ensures Parse(number, Tokens(Print(other, e))) == Done(e, [])
  {
    FeedPrinted(number, other, e, START);
    ParseTokensOf(number, e, []);
    assert START.tokens + TokensOf(e) == TokensOf(e) + [];
  }

  // ----- Strings never come back -----

  /** The expression holds a string; with `quotes`, one with a quote in it. */
  predicate HasString<N>(e: Exp<N>, quotes: bool)
    decreases e, 0
  {
    match e
    case String(text) => quotes ==> '"' in text
    case List(items) => AnyHasString(items, quotes)
    case _ => false
  }

  predicate AnyHasString<N>(items: seq<Exp<N>>, quotes: bool)
    decreases items
  {
    items != [] && (HasString(items[0], quotes) || AnyHasString(items[1..], quotes))
  }

  lemma {:induction false} AnyHasStringSnoc<N>(items: seq<Exp<N>>, e: Exp<N>, quotes: bool)
    ensures AnyHasString(items + [e], quotes) <==> AnyHasString(items, quotes) || HasString(e, quotes)
  {
    if items == [] {
      assert items + [e] == [e] && [e][1..] == [];
    } else {
      assert (items + [e])[1..] == items[1..] + [e];
      AnyHasStringSnoc(items[1..], e, quotes);
    }
  }

  /** Tokens from which no such string can be read. */
  ghost predicate CannotRead(t: Token, quotes: bool) {
    if quotes then IsQuoted(t) || '"' !in t else '"' !in t
  }

  ghost predicate NoneCanRead(ts: seq<Token>, quotes: bool) {
    forall i :: 0 <= i < |ts| ==> CannotRead(ts[i], quotes)
  }

  lemma {:induction false} ParseFindsNoString<N>(number: Token -> Option<N>, ts: seq<Token>, quotes: bool)
    requires NoneCanRead(ts, quotes) && Parse(number, ts).Done?
    ensures !HasString(Parse(number, ts).exp, quotes) && NoneCanRead(Parse(number, ts).rest, quotes)
    decreases |ts|, 0
  {
    if ts[0] == "(" {
      ReadSeqFindsNoString(number, ts[1..], [], quotes);
    } else {
      assert CannotRead(ts[0], quotes);
    }
  }

  lemma {:induction false} ReadSeqFindsNoString<N>(number: Token -> Option<N>, ts: seq<Token>, read: seq<Exp<N>>, quotes: bool)
    requires NoneCanRead(ts, quotes) && !AnyHasString(read, quotes) && ReadSeq(number, ts, read).Done?
    ensures !HasString(ReadSeq(number, ts, read).exp, quotes) && NoneCanRead(ReadSeq(number, ts, read).rest, quotes)
    decreases |ts|, 1
  {
    if ts[0] == ")" {
    } else {
      ParseFindsNoString(number, ts, quotes);
      var next := Parse(number, ts);
      AnyHasStringSnoc(read, next.exp, quotes);
      ReadSeqFindsNoString(number, next.rest, read + [next.exp], quotes);
    }
  }

  /** No text yields a string with a quote in it. */
  lemma ReadStringsHaveNoQuote<N>(number: Token -> Option<N>, text: string)
    requires Parse(number, Tokens(text)).Done?
    ensures !HasString(Parse(number, Tokens(text)).exp, true)
  {
    var ts := Tokens(text);
    TokensShape(text);
    forall i | 0 <= i < |ts| ensures CannotRead(ts[i], true) {
      WordHasNoQuote(ts[i]);
    }
    ParseFindsNoString(number, ts, true);
  }

  lemma WordHasNoQuote(t: Token)
    requires WellShaped(t) || IsQuoted(t)
    ensures IsQuoted(t) || '"' !in t
  {
    if IsWord(t) {
      assert forall i :: 0 <= i < |t| ==> !IsDelimiter(t[i]);
    }
  }

  lemma {:induction false} ConcatHas(ts: seq<Token>, i: nat, c: char)
    requires i < |ts| && c in ts[i]
    ensures c in Concat(ts)
    decreases |ts|
  {
    if i == |ts| - 1 {
    } else {
      ConcatHas(ts[..|ts| - 1], i, c);
    }
  }

  lemma {:induction false} VisibleIsPart(mode: Mode, text: string, c: char)
    requires c !in text
    ensures c !in Visible(mode, text)
    decreases |text|
  {
    if text == [] {
    } else {
      VisibleIsPart(NextMode(mode, text[0]), text[1..], c);
    }
  }

  /** A text without quotes yields no strings. */
  lemma NoQuotesNoStrings<N>(number: Token -> Option<N>, text: string)
    requires '"' !in text && Parse(number, Tokens(text)).Done?
    ensures !HasString(Parse(number, Tokens(text)).exp, false)
  {
    var ts := Tokens(text);
    TokensConserve(text);
    VisibleIsPart(Normal, text, '"');
    forall i | 0 <= i < |ts| ensures '"' !in ts[i] {
      if '"' in ts[i] {
        ConcatHas(ts, i, '"');
      }
    }
    ParseFindsNoString(number, ts, false);
  }

  lemma {:induction false} PrintedQuotes<N>(number: Token -> Option<N>, other: Exp<N> -> string, e: Exp<N>)
    requires Data(number, e, true) && !HasString(e, true)
    ensures '"' !in Print(other, e)
    decreases e, 0
  {
    match e
    case Bool(_) =>
    case Symbol(name) => WordHasNoQuote(name);
      assert forall i :: 0 <= i < |name| ==> !IsDelimiter(name[i]);
    case String(_) =>
    case List(items) => PrintedItemsQuotes(number, other, items);
  }

  lemma {:induction false} PrintedItemsQuotes<N>(number: Token -> Option<N>, other: Exp<N> -> string, items: seq<Exp<N>>)
    requires AllData(number, items, true) && !AnyHasString(items, true)
    ensures '"' !in PrintItems(other, items)
    decreases items
  {
    if items == [] {
    } else {
      PrintedQuotes(number, other, items[0]);
      PrintedItemsQuotes(number, other, items[1..]);
    }
  }

  lemma {:induction false} DataWithoutStrings<N>(number: Token -> Option<N>, e: Exp<N>)
    requires Data(number, e, true) && !HasString(e, false)
    ensures Data(number, e, false)
    decreases e, 0
  {
    if !e.List? {
    } else {
      AllDataWithoutStrings(number, e.items);
    }
  }

  lemma {:induction false} AllDataWithoutStrings<N>(number: Token -> Option<N>, items: seq<Exp<N>>)
    requires AllData(number, items, true) && !AnyHasString(items, false)
    ensures AllData(number, items, false)
    decreases items
  {
    if items == [] {
    } else {
      DataWithoutStrings(number, items[0]);
      AllDataWithoutStrings(number, items[1..]);
    }
  }

  /**
   * Nested lists of booleans, legal symbols and strings come back from their printed form exactly when they hold no
   * string, because printing leaves out the quotes.
   */
  lemma RoundTripsExactly<N>(number: Token -> Option<N>, other: Exp<N> -> string, e: Exp<N>)
    requires Data(number, e, true)
    ensures Parse(number, Tokens(Print(other, e))) == Done(e, []) <==> !HasString(e, false)
  {
    if !HasString(e, false) {
      DataWithoutStrings(number, e);
      PrintThenRead(number, other, e);
    } else if Parse(number, Tokens(Print(other, e))) == Done(e, []) {
      ReadStringsHaveNoQuote(number, Print(other, e));
      PrintedQuotes(number, other, e);
      NoQuotesNoStrings(number, Print(other, e));
    }
  }
}
