/** The reader: from tokens to expressions. */
module Reader {
  import opened Basics
  import opened Lisp
  import opened Tokenizer

  datatype Reading<N> = Done(exp: Exp<N>, rest: seq<Token>) | Error(reason: string) | Panicked

  const LONE_QUOTE: Token := "\""

  /** `parse_atom`; `number` is the text conversion of numbers. A lone quote panics: `None`. */
  function ParseAtom<N>(number: Token -> Option<N>, t: Token): Option<Exp<N>> {
    if t == "true" then Some(Bool(true))
    else if t == "false" then Some(Bool(false))
    else if t != [] && t[0] == '"' && t[|t| - 1] == '"' then
      if |t| < 2 then None else Some(String(t[1..|t| - 1]))
    else
      match number(t)
      case Some(v) => Some(Number(v))
      case None => Some(Symbol(t))
  }

  function Parse<N>(number: Token -> Option<N>, ts: seq<Token>): (r: Reading<N>)
    ensures r.Done? ==> |r.rest| < |ts|
    decreases |ts|, 0
  {
    if ts == [] then Error("could not get token")
    else if ts[0] == "(" then ReadSeq(number, ts[1..], [])
    else if ts[0] == ")" then Error("unexpected `)`")
    else
      match ParseAtom(number, ts[0])
      case Some(e) => Done(e, ts[1..])
      case None => Panicked
  }

  /** The rest of a list, behind its opening parenthesis and the elements read so far. */
  function ReadSeq<N>(number: Token -> Option<N>, ts: seq<Token>, read: seq<Exp<N>>): (r: Reading<N>)
    ensures r.Done? ==> |r.rest| < |ts|
    decreases |ts|, 1
  {
    if ts == [] then Error("could not find closing `)`")
    else if ts[0] == ")" then Done(List(read), ts[1..])
    else
      match Parse(number, ts)
      case Done(e, rest) => ReadSeq(number, rest, read + [e])
      case Error(reason) => Error(reason)
      case Panicked => Panicked
  }

  method ParseTokens<N>(number: Token -> Option<N>, ts: seq<Token>) returns (r: Reading<N>)
    ensures r == Parse(number, ts)
    decreases |ts|, 0
  {
    if ts == [] {
      return Error("could not get token");
    }
    if ts[0] == "(" {
      r := ReadSequence(number, ts[1..]);
    } else if ts[0] == ")" {
      r := Error("unexpected `)`");
    } else {
      var atom := ParseAtom(number, ts[0]);
      r := if atom.Some? then Done(atom.value, ts[1..]) else Panicked;
    }
  }

  method ReadSequence<N>(number: Token -> Option<N>, ts: seq<Token>) returns (r: Reading<N>)
    ensures r == ReadSeq(number, ts, [])
    decreases |ts|, 1
  {
    var res: seq<Exp<N>> := [];
    var xs := ts;
    while true
      invariant |xs| <= |ts| && ReadSeq(number, xs, res) == ReadSeq(number, ts, [])
      decreases |xs|
    {
      if xs == [] {
        return Error("could not find closing `)`");
      }
      if xs[0] == ")" {
        return Done(List(res), xs[1..]);
      }
      var next := ParseTokens(number, xs);
      if !next.Done? {
        return next;
      }
      res := res + [next.exp];
      xs := next.rest;
    }
  }

  // ----- Exactness -----

  function Weight(t: Token): int {
    if t == "(" then 1 else if t == ")" then -1 else 0
  }

  /** The nesting depth at the end of the tokens. */
  function Depth(ts: seq<Token>): int {
    if ts == [] then 0 else Depth(ts[..|ts| - 1]) + Weight(ts[|ts| - 1])
  }

  function Plus(n: nat, r: Option<nat>): Option<nat> {
    if r.Some? then Some(n + r.value) else None
  }

  lemma PlusPlus(m: nat, n: nat, r: Option<nat>)
    ensures Plus(m, Plus(n, r)) == Plus(m + n, r)
  {
  }

  /** How many tokens it takes to come down from depth `depth` to zero. */
  function Closing(ts: seq<Token>, depth: nat): (r: Option<nat>)
    requires depth >= 1
    ensures r.Some? ==> 1 <= r.value <= |ts|
  {
    if ts == [] then None
    else if depth + Weight(ts[0]) == 0 then Some(1)
    else Plus(1, Closing(ts[1..], depth + Weight(ts[0])))
  }

  lemma {:induction false} DepthFirst(t: Token, ts: seq<Token>)
    ensures Depth([t] + ts) == Weight(t) + Depth(ts)
  {
    if ts == [] {
      assert ([t] + ts)[..0] == [];
    } else {
      assert ([t] + ts)[..|ts|] == [t] + ts[..|ts| - 1];
      DepthFirst(t, ts[..|ts| - 1]);
    }
  }

  lemma DepthFrom(ts: seq<Token>, j: nat)
    requires 1 <= j <= |ts|
    ensures Depth(ts[..j]) == Weight(ts[0]) + Depth(ts[1..][..j - 1])
  {
    assert ts[..j] == [ts[0]] + ts[1..][..j - 1];
    DepthFirst(ts[0], ts[1..][..j - 1]);
  }

  /** The closing position is the first place where the depth is back at zero. */
  lemma {:induction false} ClosingIsFirst(ts: seq<Token>, depth: nat, k: nat)
    requires depth >= 1 && k <= |ts|
    ensures Closing(ts, depth) == Some(k) <==>
              depth + Depth(ts[..k]) == 0 && forall j :: 0 <= j < k ==> depth + Depth(ts[..j]) > 0
    decreases |ts|
  {
    if k == 0 {
      assert ts[..0] == [];
    } else {
      var rest, next := ts[1..], depth + Weight(ts[0]);
      assert ts[..0] == [];
      forall j | 1 <= j <= k ensures depth + Depth(ts[..j]) == next + Depth(rest[..j - 1]) {
        DepthFrom(ts, j);
      }
      if next > 0 {
        ClosingIsFirst(rest, next, k - 1);
        if depth + Depth(ts[..k]) == 0 && forall j :: 0 <= j < k ==> depth + Depth(ts[..j]) > 0 {
          forall j | 0 <= j < k - 1 ensures next + Depth(rest[..j]) > 0 {
            assert depth + Depth(ts[..j + 1]) > 0;
          }
        }
        if Closing(ts, depth) == Some(k) {
          forall j | 0 <= j < k ensures depth + Depth(ts[..j]) > 0 {
            if j > 0 {
              assert next + Depth(rest[..j - 1]) > 0;
            }
          }
        }
      } else {
        assert rest[..0] == [];
        assert depth + Depth(ts[..1]) == 0;
      }
    }
  }

  /** Coming down from `depth + 1` is coming down by one and then from `depth`. */
  lemma {:induction false} ClosingNested(ts: seq<Token>, d: nat, depth: nat)
    requires d >= 1 && depth >= 1
    ensures Closing(ts, d + depth)
         == match Closing(ts, d) case None => None case Some(k) => Plus(k, Closing(ts[k..], depth))
    decreases |ts|
  {
    if ts == [] {
    } else {
      var next := d + Weight(ts[0]);
      if next >= 1 {
        ClosingNested(ts[1..], next, depth);
        var k := Closing(ts[1..], next);
        if k.Some? {
          assert ts[1..][k.value..] == ts[k.value + 1..];
        }
      }
    }
  }

  /** How many tokens the first expression takes. */
  function Extent(ts: seq<Token>): (r: Option<nat>)
    ensures r.Some? ==> 1 <= r.value <= |ts|
  {
    if ts == [] || ts[0] == ")" then None
    else if ts[0] != "(" then Some(1)
    else Plus(1, Closing(ts[1..], 1))
  }

  /** What reading must come to, from the extent and the place of lone quotes alone. */
  ghost predicate Reads<N>(r: Reading<N>, ts: seq<Token>, extent: Option<nat>, inList: bool) {
    match extent
    case Some(n) =>
      n <= |ts| && if LONE_QUOTE in ts[..n] then r.Panicked? else r.Done? && r.rest == ts[n..]
    case None =>
      if inList && LONE_QUOTE in ts then r.Panicked? else r.Error?
  }

  lemma {:induction false} ParseReads<N>(number: Token -> Option<N>, ts: seq<Token>)
    ensures Reads(Parse(number, ts), ts, Extent(ts), ts != [] && ts[0] == "(")
    decreases |ts|, 0
  {
    if ts != [] && ts[0] == "(" {
      var rest := ts[1..];
      ReadSeqReads(number, rest, []);
      assert ts == [ts[0]] + rest;
      var k := Closing(rest, 1);
      if k.Some? {
        assert ts[..k.value + 1] == [ts[0]] + rest[..k.value];
        assert ts[k.value + 1..] == rest[k.value..];
      }
    } else if ts != [] {
      assert ts[..1] == [ts[0]];
      AtomPanics(number, ts[0]);
    }
  }

  lemma AtomPanics<N>(number: Token -> Option<N>, t: Token)
    ensures ParseAtom(number, t).None? <==> t == LONE_QUOTE
  {
    if |t| == 1 {
      assert t == [t[0]];
    }
  }

  /** What every other atom reads as: a quoted text as that text, a numeral as its number, anything else as a symbol. */
  lemma AtomReads<N>(number: Token -> Option<N>, t: Token, text: string)
    ensures ParseAtom(number, "true") == Some(Bool(true)) && ParseAtom(number, "false") == Some(Bool(false))
    ensures ParseAtom(number, "\"" + text + "\"") == Some(String(text))
    ensures t != "true" && t != "false" && (t == [] || t[0] != '"' || t[|t| - 1] != '"') ==>
      ParseAtom(number, t) == Some(if number(t).Some? then Number(number(t).value) else Symbol(t))
  {
    var quoted := "\"" + text + "\"";
    assert quoted[0] == '"' && quoted[|quoted| - 1] == '"' && quoted[1..|quoted| - 1] == text;
    assert quoted != "true" && quoted != "false" by {
      assert "true"[0] == 't' && "false"[0] == 'f';
    }
  }

  lemma {:induction false} ReadSeqReads<N>(number: Token -> Option<N>, ts: seq<Token>, read: seq<Exp<N>>)
    ensures Reads(ReadSeq(number, ts, read), ts, Closing(ts, 1), true)
    decreases |ts|, 1
  {
    if ts == [] {
    } else {
      if ts[0] == ")" {
        assert ts[..1] == [ts[0]];
      } else {
        ParseReads(number, ts);
        ElementExtent(ts);
        var n := Extent(ts);
        if n.Some? && LONE_QUOTE !in ts[..n.value] {
          var next := Parse(number, ts);
          ReadSeqReads(number, next.rest, read + [next.exp]);
          SplitReads(ReadSeq(number, next.rest, read + [next.exp]), ts, n.value, Closing(next.rest, 1));
        } else if n.Some? {
          PrefixHasQuote(ts, n.value);
        }
      }
    }
  }

  /** Inside a list, the list closes where it closes behind its first element. */
  lemma ElementExtent(ts: seq<Token>)
    requires ts != [] && ts[0] != ")"
    ensures Closing(ts, 1) == match Extent(ts) case None => None case Some(n) => Plus(n, Closing(ts[n..], 1))
  {
    var rest := ts[1..];
    assert Closing(ts, 1) == Plus(1, Closing(rest, 1 + Weight(ts[0])));
    if ts[0] == "(" {
      ClosingNested(rest, 1, 1);
      var k := Closing(rest, 1);
      if k.Some? {
        PlusPlus(1, k.value, Closing(rest[k.value..], 1));
        assert rest[k.value..] == ts[k.value + 1..];
      }
    }
  }

  lemma SplitReads<N>(r: Reading<N>, ts: seq<Token>, n: nat, extent: Option<nat>)
    requires n <= |ts| && LONE_QUOTE !in ts[..n] && Reads(r, ts[n..], extent, true)
    ensures Reads(r, ts, Plus(n, extent), true)
  {
    assert ts == ts[..n] + ts[n..];
    if extent.Some? {
      var m := extent.value;
      assert ts[..n + m] == ts[..n] + ts[n..][..m];
      assert ts[n + m..] == ts[n..][m..];
    }
  }

  lemma PrefixHasQuote(ts: seq<Token>, n: nat)
    requires n <= |ts| && LONE_QUOTE in ts[..n]
    ensures LONE_QUOTE in ts && forall m :: n <= m <= |ts| ==> LONE_QUOTE in ts[..m]
  {
    var i :| 0 <= i < n && ts[..n][i] == LONE_QUOTE;
    forall m | n <= m <= |ts| ensures LONE_QUOTE in ts[..m] {
      assert ts[..m][i] == LONE_QUOTE;
    }
    assert ts[i] == LONE_QUOTE;
  }

  /**
   * Reading succeeds exactly when the tokens start with an atom or with a parenthesis that is closed again, and
   * no token up to there is a lone quote. It then takes exactly the tokens up to there.
   */
  lemma ParseExactly<N>(number: Token -> Option<N>, ts: seq<Token>)
    ensures Parse(number, ts).Done? <==> Extent(ts).Some? && LONE_QUOTE !in ts[..Extent(ts).value]
    ensures Parse(number, ts).Done? ==> Parse(number, ts).rest == ts[Extent(ts).value..]
    ensures Parse(number, ts).Panicked? <==>
              || (Extent(ts).Some? && LONE_QUOTE in ts[..Extent(ts).value])
              || (Extent(ts).None? && ts != [] && ts[0] == "(" && LONE_QUOTE in ts)
  {
    ParseReads(number, ts);
  }

  // ----- Tokens behind the expression do not matter -----

  lemma {:induction false} ParseIgnoresRest<N>(number: Token -> Option<N>, ts: seq<Token>, more: seq<Token>)
    requires Parse(number, ts).Done?
    ensures Parse(number, ts + more) == Done(Parse(number, ts).exp, Parse(number, ts).rest + more)
    decreases |ts|, 0
  {
    assert (ts + more)[1..] == ts[1..] + more;
    if ts[0] == "(" {
      ReadSeqIgnoresRest(number, ts[1..], [], more);
    }
  }

  lemma {:induction false} ReadSeqIgnoresRest<N>(number: Token -> Option<N>, ts: seq<Token>, read: seq<Exp<N>>, more: seq<Token>)
    requires ReadSeq(number, ts, read).Done?
    ensures ReadSeq(number, ts + more, read)
         == Done(ReadSeq(number, ts, read).exp, ReadSeq(number, ts, read).rest + more)
    decreases |ts|, 1
  {
    if ts[0] == ")" {
      assert (ts + more)[1..] == ts[1..] + more;
    } else {
      ParseIgnoresRest(number, ts, more);
      var next := Parse(number, ts);
      ReadSeqIgnoresRest(number, next.rest, read + [next.exp], more);
    }
  }

  // ----- Panics, seen from the text -----

  /** The text is cut off right behind the quote that opens a string. */
  predicate CutBehindQuote(text: string) {
    text != [] && text[|text| - 1] == '"' && ModeAfter(Normal, text[..|text| - 1]) == Normal
  }

  lemma CutText(text: string)
    requires CutBehindQuote(text)
    ensures Tokens(text) == Tokens(text[..|text| - 1]) + [LONE_QUOTE]
    ensures LONE_QUOTE !in Tokens(text[..|text| - 1])
  {
    var before := text[..|text| - 1];
    ModeIsAfter(START, before);
    TokensShape(before);
    var ts := Tokens(before);
    assert LONE_QUOTE[0] == '"' && |LONE_QUOTE| == 1;
    forall i | 0 <= i < |ts| ensures ts[i] != LONE_QUOTE {
      assert WellShaped(ts[i]);
      LoneQuoteIsIllShaped();
    }
  }

  lemma LoneQuoteIsIllShaped()
    ensures !WellShaped(LONE_QUOTE)
  {
    assert LONE_QUOTE[0] == '"' && |LONE_QUOTE| == 1;
  }

  lemma LoneQuoteComesFromCut(text: string)
    requires LONE_QUOTE in Tokens(text)
    ensures CutBehindQuote(text)
  {
    var st := FeedAll(START, text);
    FeedAllShapely(START, text);
    ModeIsAfter(START, text);
    LoneQuoteIsIllShaped();
    assert LONE_QUOTE[0] == '"' && |LONE_QUOTE| == 1;
    assert LONE_QUOTE !in st.tokens;
    assert st.current == LONE_QUOTE;
    assert st.mode == InString;
    var before := text[..|text| - 1];
    FeedAllShapely(START, before);
    ModeIsAfter(START, before);
  }

  /** Where no expression ends, an atom behind the tokens does not end one either. */
  lemma {:induction false} ClosingSnoc(ts: seq<Token>, depth: nat, t: Token)
    requires depth >= 1 && Weight(t) == 0
    ensures Closing(ts + [t], depth) == Closing(ts, depth)
    decreases |ts|
  {
    if ts == [] {
      assert ts + [t] == [t] && [t][1..] == [];
    } else {
      assert (ts + [t])[1..] == ts[1..] + [t];
      if depth + Weight(ts[0]) != 0 {
        ClosingSnoc(ts[1..], depth + Weight(ts[0]), t);
      }
    }
  }

  /**
   * Reading a text panics exactly when the text is cut off right behind an opening quote and what comes before is
   * blank or an open list.
   */
  lemma ReadingPanicsExactly<N>(number: Token -> Option<N>, text: string)
    ensures Parse(number, Tokens(text)).Panicked? <==>
              && CutBehindQuote(text)
              && var before := Tokens(text[..|text| - 1]);
                 before == [] || (before[0] == "(" && Extent(before) == None)
  {
    var ts := Tokens(text);
    ParseExactly(number, ts);
    if CutBehindQuote(text) {
      var before := Tokens(text[..|text| - 1]);
      CutText(text);
      assert ts == before + [LONE_QUOTE];
      assert ts[|before|] == LONE_QUOTE;
      if before != [] {
        assert ts[1..] == before[1..] + [LONE_QUOTE];
        ClosingSnoc(before[1..], 1, LONE_QUOTE);
        if Extent(before).Some? {
          assert ts[..Extent(before).value] == before[..Extent(before).value];
        }
      } else {
        assert ts == [LONE_QUOTE];
      }
    } else if LONE_QUOTE in ts {
      LoneQuoteComesFromCut(text);
    }
  }
}
