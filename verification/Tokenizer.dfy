/** The tokenizer of the Lisp reader: three modes over one pass of the text. */
module Tokenizer {

  type Token = string

  /** `char::is_whitespace`: the Unicode property White_Space. */
  predicate IsWhitespace(c: char) {
    || '\U{9}' <= c <= '\U{D}' || c == ' ' || c == '\U{85}' || c == '\U{A0}' || c == '\U{1680}'
    || '\U{2000}' <= c <= '\U{200A}' || c == '\U{2028}' || c == '\U{2029}' || c == '\U{202F}'
    || c == '\U{205F}' || c == '\U{3000}'
  }

  datatype Mode = Normal | InString | InComment

  datatype State = State(mode: Mode, current: Token, tokens: seq<Token>)

  function Flush(st: State): State {
    if st.current == [] then st else st.(current := [], tokens := st.tokens + [st.current])
  }

  /** What one character does. */
  function Feed(st: State, c: char): State {
    match st.mode
    case InComment => if c == '#' then st.(mode := Normal) else st
    case InString =>
      var st1 := st.(current := st.current + [c]);
      if c == '"' then Flush(st1).(mode := Normal) else st1
    case Normal =>
      if c == '#' then Flush(st).(mode := InComment)
      else if c == '"' then State(InString, [c], Flush(st).tokens)
      else if c == '(' || c == ')' then State(Normal, [], Flush(st).tokens + [[c]])
      else if IsWhitespace(c) then Flush(st)
      else st.(current := st.current + [c])
  }

  function FeedAll(st: State, text: string): State {
    if text == [] then st else Feed(FeedAll(st, text[..|text| - 1]), text[|text| - 1])
  }

  const START := State(Normal, [], [])

  /** The tokens of a text. */
  function Tokens(text: string): seq<Token> {
    Flush(FeedAll(START, text)).tokens
  }

  /** The loop of the source, on its two flags and two buffers. */
  method Tokenize(text: string) returns (tokens: seq<Token>)
    ensures tokens == Tokens(text)
  {
    tokens := [];
    var current: Token := [];
    var inString, inComment := false, false;
    for i := 0 to |text|
      invariant !(inString && inComment)
      invariant var mode := if inComment then InComment else if inString then InString else Normal;
        FeedAll(START, text[..i]) == State(mode, current, tokens)
    {
      var c := text[i];
      assert text[..i + 1][..i] == text[..i];
      if inComment {
        if c == '#' {
          inComment := false;
        }
        continue;
      }
      if inString {
        current := current + [c];
        if c == '"' {
          inString := false;
          tokens := tokens + [current];
          current := [];
        }
        continue;
      }
      if c == '#' {
        if current != [] {
          tokens := tokens + [current];
          current := [];
        }
        inComment := true;
      } else if c == '"' {
        if current != [] {
          tokens := tokens + [current];
          current := [];
        }
        inString := true;
        current := current + [c];
      } else if c == '(' || c == ')' {
        if current != [] {
          tokens := tokens + [current];
          current := [];
        }
        tokens := tokens + [[c]];
      } else if IsWhitespace(c) {
        if current != [] {
          tokens := tokens + [current];
          current := [];
        }
      } else {
        current := current + [c];
      }
    }
    assert text[..|text|] == text;
    if current != [] {
      tokens := tokens + [current];
    }
  }

  // ----- Composition -----

  lemma {:induction false} FeedAppend(st: State, xs: string, ys: string)
    ensures FeedAll(st, xs + ys) == FeedAll(FeedAll(st, xs), ys)
    decreases |ys|
  {
    if ys == [] {
      assert xs + ys == xs;
    } else {
      assert (xs + ys)[..|xs + ys| - 1] == xs + ys[..|ys| - 1];
      FeedAppend(st, xs, ys[..|ys| - 1]);
    }
  }

  lemma FeedOne(st: State, c: char)
    ensures FeedAll(st, [c]) == Feed(st, c)
  {
    assert [c][..0] == [];
  }

  lemma FeedFirst(st: State, c: char, text: string)
    ensures FeedAll(st, [c] + text) == FeedAll(Feed(st, c), text)
  {
    FeedAppend(st, [c], text);
    FeedOne(st, c);
  }

  function NextMode(mode: Mode, c: char): Mode {
    match mode
    case Normal => if c == '#' then InComment else if c == '"' then InString else Normal
    case InString => if c == '"' then Normal else InString
    case InComment => if c == '#' then Normal else InComment
  }

  /** The mode after a text, decided by the quotes and hashes alone. */
  function ModeAfter(mode: Mode, text: string): Mode
    decreases |text|
  {
    if text == [] then mode else ModeAfter(NextMode(mode, text[0]), text[1..])
  }

  lemma {:induction false} ModeIsAfter(st: State, text: string)
    ensures FeedAll(st, text).mode == ModeAfter(st.mode, text)
    decreases |text|
  {
    if text == [] {
    } else {
      FeedFirst(st, text[0], text[1..]);
      assert text == [text[0]] + text[1..];
      ModeIsAfter(Feed(st, text[0]), text[1..]);
    }
  }

  // ----- Separation -----

  function Behind(before: seq<Token>, st: State): State {
    st.(tokens := before + st.tokens)
  }

  lemma FlushBehind(before: seq<Token>, st: State)
    ensures Flush(Behind(before, st)) == Behind(before, Flush(st))
  {
    assert (before + st.tokens) + [st.current] == before + (st.tokens + [st.current]);
  }

  lemma FeedBehind(before: seq<Token>, st: State, c: char)
    ensures Feed(Behind(before, st), c) == Behind(before, Feed(st, c))
  {
    FlushBehind(before, st);
    FlushBehind(before, st.(current := st.current + [c]));
    assert (before + Flush(st).tokens) + [[c]] == before + (Flush(st).tokens + [[c]]);
  }

  /** Tokens found before do not matter for what follows. */
  lemma {:induction false} FeedAllBehind(before: seq<Token>, st: State, text: string)
    ensures FeedAll(Behind(before, st), text) == Behind(before, FeedAll(st, text))
    decreases |text|
  {
    if text == [] {
    } else {
      FeedAllBehind(before, st, text[..|text| - 1]);
      FeedBehind(before, FeedAll(st, text[..|text| - 1]), text[|text| - 1]);
    }
  }

  /** The code points of White_Space. */
  const SPACES: seq<int> := [0x9, 0xA, 0xB, 0xC, 0xD, 0x20, 0x85, 0xA0, 0x1680,
                             0x2000, 0x2001, 0x2002, 0x2003, 0x2004, 0x2005, 0x2006, 0x2007, 0x2008, 0x2009, 0x200A,
                             0x2028, 0x2029, 0x202F, 0x205F, 0x3000]

  lemma SpacesAreWhite(c: char)
    ensures IsWhitespace(c) <==> c as int in SPACES
  {
    var u := c as int;
    if 0x2000 <= u <= 0x200A {
      assert u == SPACES[9 + (u - 0x2000)];
    } else if 0x9 <= u <= 0xD {
      assert u == SPACES[u - 0x9];
    }
  }

  /** Whatever clears the current token outside strings and comments separates what stands before from what follows. */
  lemma ClearedSeparates(text: string, c: char, more: string)
    requires Feed(FeedAll(START, text), c) == Behind(Feed(FeedAll(START, text), c).tokens, START)
    ensures Tokens(text + [c] + more) == Feed(FeedAll(START, text), c).tokens + Tokens(more)
  {
    var st := FeedAll(START, text);
    var before := Feed(st, c).tokens;
    FeedAppend(START, text, [c] + more);
    FeedFirst(st, c, more);
    assert text + [c] + more == text + ([c] + more);
    FeedAllBehind(before, START, more);
    FlushBehind(before, FeedAll(START, more));
  }

  /** Outside strings and comments, a space separates and leaves no token; a parenthesis separates and is one. */
  lemma SpaceSeparates(text: string, c: char, more: string)
    requires ModeAfter(Normal, text) == Normal
    ensures c as int in SPACES ==> Tokens(text + [c] + more) == Tokens(text) + Tokens(more)
    ensures c == '(' || c == ')' ==> Tokens(text + [c] + more) == Tokens(text) + [[c]] + Tokens(more)
  {
    SpacesAreWhite(c);
    ModeIsAfter(START, text);
    if IsWhitespace(c) || c == '(' || c == ')' {
      ClearedSeparates(text, c, more);
    }
  }

  // ----- Conservation -----

  function Concat(tokens: seq<Token>): string {
    if tokens == [] then [] else Concat(tokens[..|tokens| - 1]) + tokens[|tokens| - 1]
  }

  /** Comments, their hashes and whitespace outside strings do not show. */
  predicate Shows(mode: Mode, c: char) {
    mode == InString || (mode == Normal && c != '#' && !IsWhitespace(c))
  }

  function Shown(mode: Mode, c: char): string {
    if Shows(mode, c) then [c] else []
  }

  /** The text without comments and without the whitespace outside strings. */
  function Visible(mode: Mode, text: string): string
    decreases |text|
  {
    if text == [] then [] else Shown(mode, text[0]) + Visible(NextMode(mode, text[0]), text[1..])
  }

  lemma {:induction false} VisibleSnoc(mode: Mode, text: string, c: char)
    ensures Visible(mode, text + [c]) == Visible(mode, text) + Shown(ModeAfter(mode, text), c)
    decreases |text|
  {
    if text == [] {
      assert text + [c] == [c] && [c][1..] == [];
    } else {
      assert (text + [c])[1..] == text[1..] + [c];
      VisibleSnoc(NextMode(mode, text[0]), text[1..], c);
    }
  }

  /** All characters held by a state. */
  function Held(st: State): string {
    Concat(st.tokens) + st.current
  }

  lemma ConcatSnoc(tokens: seq<Token>, t: Token)
    ensures Concat(tokens + [t]) == Concat(tokens) + t
  {
    assert (tokens + [t])[..|tokens|] == tokens;
  }

  lemma FlushHolds(st: State)
    ensures Held(Flush(st)) == Held(st) == Concat(Flush(st).tokens)
  {
    ConcatSnoc(st.tokens, st.current);
  }

  lemma PushHolds(st: State, c: char)
    ensures Held(st.(current := st.current + [c])) == Held(st) + [c]
  {
  }

  /** A quote or a parenthesis behind finished tokens. */
  lemma DelimiterHolds(tokens: seq<Token>, c: char)
    ensures Held(State(InString, [c], tokens)) == Concat(tokens) + [c]
    ensures Held(State(Normal, [], tokens + [[c]])) == Concat(tokens) + [c]
  {
    ConcatSnoc(tokens, [c]);
  }

  lemma FeedNormalHolds(st: State, c: char)
    requires st.mode == Normal
    ensures Held(Feed(st, c)) == Held(st) + Shown(st.mode, c)
  {
    if c == '(' || c == ')' || c == '"' {
      var done := Flush(st).tokens;
      assert Concat(done) == Held(st) by {
        FlushHolds(st);
      }
      DelimiterHolds(done, c);
      assert Feed(st, c) == if c == '"' then State(InString, [c], done) else State(Normal, [], done + [[c]]);
    } else if c == '#' || IsWhitespace(c) {
      FlushHolds(st);
    } else {
      PushHolds(st, c);
    }
  }

  /** A comment leaves no token unfinished. */
  predicate CleanComment(st: State) {
    st.mode == InComment ==> st.current == []
  }

  lemma FeedHolds(st: State, c: char)
    requires CleanComment(st)
    ensures CleanComment(Feed(st, c))
    ensures Held(Feed(st, c)) == Held(st) + Shown(st.mode, c)
  {
    match st.mode
    case InComment =>
    case InString =>
      PushHolds(st, c);
      FlushHolds(st.(current := st.current + [c]));
    case Normal =>
      FeedNormalHolds(st, c);
  }

  lemma FeedMoreHolds(st: State, init: string, c: char)
    requires CleanComment(FeedAll(st, init)) && Held(FeedAll(st, init)) == Held(st) + Visible(st.mode, init)
    ensures CleanComment(Feed(FeedAll(st, init), c))
    ensures Held(Feed(FeedAll(st, init), c)) == Held(st) + Visible(st.mode, init + [c])
  {
    FeedHolds(FeedAll(st, init), c);
    ModeIsAfter(st, init);
    ShownNext(Held(st), st.mode, init, c);
  }

  lemma {:induction false} FeedAllHolds(st: State, text: string)
    requires CleanComment(st)
    ensures CleanComment(FeedAll(st, text)) && Held(FeedAll(st, text)) == Held(st) + Visible(st.mode, text)
    decreases |text|
  {
    if text == [] {
    } else {
      var init := text[..|text| - 1];
      FeedAllHolds(st, init);
      FeedMoreHolds(st, init, text[|text| - 1]);
      assert init + [text[|text| - 1]] == text;
    }
  }

  lemma ShownNext(held: string, mode: Mode, init: string, c: char)
    ensures held + Visible(mode, init + [c]) == (held + Visible(mode, init)) + Shown(ModeAfter(mode, init), c)
  {
    VisibleSnoc(mode, init, c);
  }

  /** The tokens laid end to end are the text minus comments and whitespace outside strings. */
  lemma TokensConserve(text: string)
    ensures Concat(Tokens(text)) == Visible(Normal, text)
  {
    FeedAllHolds(START, text);
    FlushHolds(FeedAll(START, text));
  }

  // ----- Shape of tokens -----

  predicate IsDelimiter(c: char) {
    c == '#' || c == '"' || c == '(' || c == ')' || IsWhitespace(c)
  }

  /** A run of ordinary characters: what symbols, numbers and booleans look like. */
  predicate IsWord(t: Token) {
    t != [] && forall i :: 0 <= i < |t| ==> !IsDelimiter(t[i])
  }

  predicate IsParen(t: Token) {
    t == "(" || t == ")"
  }

  /** A quote with no other quote behind it, except possibly at its end. */
  predicate IsQuoted(t: Token) {
    t != [] && t[0] == '"' && forall i :: 1 <= i < |t| - 1 ==> t[i] != '"'
  }

  predicate IsClosed(t: Token) {
    IsQuoted(t) && |t| >= 2 && t[|t| - 1] == '"'
  }

  predicate WellShaped(t: Token) {
    IsWord(t) || IsParen(t) || IsClosed(t)
  }

  /** Finished tokens are words, parentheses or closed strings; only the current one may be an open string. */
  predicate Shapely(st: State) {
    && (forall i :: 0 <= i < |st.tokens| ==> WellShaped(st.tokens[i]))
    && match st.mode
       case Normal => st.current == [] || IsWord(st.current)
       case InComment => st.current == []
       case InString => IsQuoted(st.current) && forall i :: 1 <= i < |st.current| ==> st.current[i] != '"'
  }

  lemma FeedShapely(st: State, c: char)
    requires Shapely(st)
    ensures Shapely(Feed(st, c))
  {
  }

  lemma {:induction false} FeedAllShapely(st: State, text: string)
    requires Shapely(st)
    ensures Shapely(FeedAll(st, text))
  {
    if text == [] {
    } else {
      FeedAllShapely(st, text[..|text| - 1]);
      FeedShapely(FeedAll(st, text[..|text| - 1]), text[|text| - 1]);
    }
  }

  /** Every token is well shaped, except that the last one is an open string exactly when the text ends inside one. */
  lemma TokensShape(text: string)
    ensures var ts := Tokens(text);
      && (forall i :: 0 <= i < |ts| - 1 ==> WellShaped(ts[i]))
      && (ts != [] ==> if ModeAfter(Normal, text) == InString then IsQuoted(ts[|ts| - 1]) && !IsClosed(ts[|ts| - 1])
                       else WellShaped(ts[|ts| - 1]))
      && (ModeAfter(Normal, text) == InString ==> ts != [])
  {
    FeedAllShapely(START, text);
    ModeIsAfter(START, text);
  }

  // ----- Comments -----

  /** A closed comment outside strings separates tokens exactly like one space. */
  lemma CommentIsSpace(before: string, comment: string, after: string)
    requires ModeAfter(Normal, before) == Normal && '#' !in comment
    ensures Tokens(before + (['#'] + comment + ['#']) + after) == Tokens(before + [' '] + after)
  {
    var st := FeedAll(START, before);
    ModeIsAfter(START, before);
    FeedAppend(START, before + (['#'] + comment + ['#']), after);
    FeedAppend(START, before, ['#'] + comment + ['#']);
    FeedAppend(START, before + [' '], after);
    FeedAppend(START, before, [' ']);
    FeedOne(st, ' ');
    CommentSkipped(st, comment);
  }

  lemma CommentSkipped(st: State, comment: string)
    requires st.mode == Normal && '#' !in comment
    ensures FeedAll(st, ['#'] + comment + ['#']) == Flush(st)
  {
    FeedAppend(st, ['#'] + comment, ['#']);
    FeedFirst(st, '#', comment);
    InsideComment(Feed(st, '#'), comment);
    FeedOne(Feed(st, '#'), '#');
  }

  lemma {:induction false} InsideComment(st: State, comment: string)
    requires st.mode == InComment && '#' !in comment
    ensures FeedAll(st, comment) == st
  {
    if comment == [] {
    } else {
      InsideComment(st, comment[..|comment| - 1]);
    }
  }
}
