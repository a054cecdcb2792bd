/** The text editor: a vector of lines and a cursor that together behave like one flat text. */
module Editor {
  import opened Basics
  import opened Text

  datatype Key = Type(c: ascii) | Backspace | Left | Right | Up | Down

  /** A flat text with one cursor offset. */
  datatype Flat = Flat(text: seq<ascii>, pos: nat) {
    predicate Valid() {
      pos <= |text|
    }
  }

  function Column(f: Flat): nat
    requires f.Valid()
  {
    f.pos - LineStart(f.text, f.pos)
  }

  /** What a key means for a flat text. */
  function Press(f: Flat, key: Key): (f': Flat)
    requires f.Valid()
    ensures f'.Valid()
  {
    match key
    case Type(c) => Flat(f.text[..f.pos] + [c] + f.text[f.pos..], f.pos + 1)
    case Backspace =>
      if f.pos == 0 then f else Flat(f.text[..f.pos - 1] + f.text[f.pos..], f.pos - 1)
    case Left => if f.pos == 0 then f else f.(pos := f.pos - 1)
    case Right => if f.pos == |f.text| then f else f.(pos := f.pos + 1)
    case Up =>
      var start := LineStart(f.text, f.pos);
      if start == 0 then f
      else
        var above := LineStart(f.text, start - 1);
        f.(pos := above + Min(Column(f), start - 1 - above))
    case Down =>
      var end := LineEnd(f.text, f.pos);
      if end == |f.text| then f
      else
        var below := end + 1;
        f.(pos := below + Min(Column(f), LineEnd(f.text, below) - below))
  }

  function PressAll(f: Flat, keys: seq<Key>): (f': Flat)
    requires f.Valid()
    ensures f'.Valid()
  {
    if keys == [] then f else Press(PressAll(f, keys[..|keys| - 1]), keys[|keys| - 1])
  }

  predicate GoodCursor(lines: seq<Line>, x: nat, y: nat) {
    NoBreaks(lines) && y < |lines| && x <= |lines[y]|
  }

  function Flatten(lines: seq<Line>, x: nat, y: nat): (f: Flat)
    requires GoodCursor(lines, x, y)
    ensures f.Valid()
  {
    JoinAround(lines, y);
    OffsetIsBefore(lines, y);
    Flat(Join(lines), Offset(lines, y) + x)
  }

  // ----- The edits on lines, as edits of the flat text -----

  function FrontOf(lines: seq<Line>, x: nat, y: nat): seq<ascii>
    requires GoodCursor(lines, x, y)
  {
    Before(lines[..y]) + lines[y][..x]
  }

  function BackOf(lines: seq<Line>, x: nat, y: nat): seq<ascii>
    requires GoodCursor(lines, x, y)
  {
    lines[y][x..] + After(lines[y + 1..])
  }

  /** The text is what is in front of the cursor followed by what is behind it. */
  lemma TextAtCursor(lines: seq<Line>, x: nat, y: nat)
    requires GoodCursor(lines, x, y)
    ensures var f, front, back := Flatten(lines, x, y), FrontOf(lines, x, y), BackOf(lines, x, y);
      f == Flat(front + back, |front|) && f.text[..f.pos] == front && f.text[f.pos..] == back
  {
    JoinAround(lines, y);
    OffsetIsBefore(lines, y);
    assert lines[y] == lines[y][..x] + lines[y][x..];
  }

  lemma InsertInLine(lines: seq<Line>, x: nat, y: nat, c: ascii)
    requires GoodCursor(lines, x, y) && c != LF
    ensures var lines' := lines[y := lines[y][..x] + [c] + lines[y][x..]];
      GoodCursor(lines', x + 1, y) && Flatten(lines', x + 1, y) == Press(Flatten(lines, x, y), Type(c))
  {
    var lines' := lines[y := lines[y][..x] + [c] + lines[y][x..]];
    TextAtCursor(lines, x, y);
    TextAtCursor(lines', x + 1, y);
    assert lines'[..y] == lines[..y] && lines'[y + 1..] == lines[y + 1..];
    assert FrontOf(lines', x + 1, y) == FrontOf(lines, x, y) + [c];
    assert BackOf(lines', x + 1, y) == BackOf(lines, x, y);
  }

  lemma BreakLine(lines: seq<Line>, x: nat, y: nat)
    requires GoodCursor(lines, x, y)
    ensures var lines' := lines[..y] + [lines[y][..x], lines[y][x..]] + lines[y + 1..];
      GoodCursor(lines', 0, y + 1) && Flatten(lines', 0, y + 1) == Press(Flatten(lines, x, y), Type(LF))
  {
    var lines' := lines[..y] + [lines[y][..x], lines[y][x..]] + lines[y + 1..];
    TextAtCursor(lines, x, y);
    TextAtCursor(lines', 0, y + 1);
    assert lines'[..y + 1][..y] == lines[..y] && lines'[y + 2..] == lines[y + 1..];
    assert FrontOf(lines', 0, y + 1) == FrontOf(lines, x, y) + [LF];
    assert BackOf(lines', 0, y + 1) == BackOf(lines, x, y);
  }

  lemma DeleteInLine(lines: seq<Line>, x: nat, y: nat)
    requires GoodCursor(lines, x, y) && x > 0
    ensures var lines' := lines[y := lines[y][..x - 1] + lines[y][x..]];
      GoodCursor(lines', x - 1, y) && Flatten(lines', x - 1, y) == Press(Flatten(lines, x, y), Backspace)
  {
    var lines' := lines[y := lines[y][..x - 1] + lines[y][x..]];
    TextAtCursor(lines, x, y);
    TextAtCursor(lines', x - 1, y);
    assert lines'[..y] == lines[..y] && lines'[y + 1..] == lines[y + 1..];
    DropLast(Flatten(lines, x, y), FrontOf(lines', x - 1, y), lines[y][x - 1]);
    assert BackOf(lines', x - 1, y) == BackOf(lines, x, y);
  }

  lemma MergeLines(lines: seq<Line>, y: nat)
    requires GoodCursor(lines, 0, y) && y > 0
    ensures var lines', x := lines[..y - 1] + [lines[y - 1] + lines[y]] + lines[y + 1..], |lines[y - 1]|;
      GoodCursor(lines', x, y - 1) && Flatten(lines', x, y - 1) == Press(Flatten(lines, 0, y), Backspace)
  {
    var lines', x := lines[..y - 1] + [lines[y - 1] + lines[y]] + lines[y + 1..], |lines[y - 1]|;
    TextAtCursor(lines, 0, y);
    TextAtCursor(lines', x, y - 1);
    assert lines'[..y - 1] == lines[..y][..y - 1] && lines'[y..] == lines[y + 1..];
    assert lines'[y - 1][..x] == lines[y - 1];
    DropLast(Flatten(lines, 0, y), FrontOf(lines', x, y - 1), LF);
    assert BackOf(lines', x, y - 1) == BackOf(lines, 0, y);
  }

  lemma RemoveThenAppend(lines: seq<Line>, y: nat)
    requires 0 < y < |lines|
    ensures var removed := lines[..y] + lines[y + 1..];
      && removed[y - 1] == lines[y - 1]
      && removed[y - 1 := lines[y - 1] + lines[y]] == lines[..y - 1] + [lines[y - 1] + lines[y]] + lines[y + 1..]
  {
  }

  lemma DropLast(f: Flat, front: seq<ascii>, c: ascii)
    requires f.Valid() && f.text[..f.pos] == front + [c]
    ensures Press(f, Backspace) == Flat(front + f.text[f.pos..], |front|)
  {
    assert f.text[..f.pos - 1] == f.text[..f.pos][..f.pos - 1] == front;
  }

  lemma UpOnFlat(f: Flat, start: nat, above: nat)
    requires f.Valid() && 0 < start <= f.pos && LineStart(f.text, f.pos) == start
    requires above < start && LineStart(f.text, start - 1) == above
    ensures Press(f, Up) == Flat(f.text, above + Min(f.pos - start, start - 1 - above))
  {
  }

  lemma DownOnFlat(f: Flat, start: nat, below: nat, end: nat)
    requires f.Valid() && start <= f.pos < below <= end <= |f.text|
    requires LineStart(f.text, f.pos) == start
    requires LineEnd(f.text, f.pos) == below - 1 && LineEnd(f.text, below) == end
    ensures Press(f, Down) == Flat(f.text, below + Min(f.pos - start, end - below))
  {
  }

  lemma MoveUpward(lines: seq<Line>, x: nat, y: nat)
    requires GoodCursor(lines, x, y)
    ensures Press(Flatten(lines, x, y), Up)
         == if y == 0 then Flatten(lines, x, y) else Flatten(lines, Min(x, |lines[y - 1]|), y - 1)
  {
    var text, start := Join(lines), Offset(lines, y);
    assert start + x <= |text| && LineStart(text, start + x) == start by {
      LineStartAt(lines, y, x);
    }
    if y > 0 {
      var above := Offset(lines, y - 1);
      assert LineStart(text, start - 1) == above by {
        assert start - 1 == above + |lines[y - 1]|;
        LineStartAt(lines, y - 1, |lines[y - 1]|);
      }
      UpOnFlat(Flat(text, start + x), start, above);
    }
  }

  lemma MoveDownward(lines: seq<Line>, x: nat, y: nat)
    requires GoodCursor(lines, x, y)
    ensures Press(Flatten(lines, x, y), Down)
         == if y == |lines| - 1 then Flatten(lines, x, y) else Flatten(lines, Min(x, |lines[y + 1]|), y + 1)
  {
    LineEndAt(lines, y, x);
    if y < |lines| - 1 {
      LineStartAt(lines, y, x);
      LineEndAt(lines, y + 1, 0);
      var below := Offset(lines, y + 1);
      DownOnFlat(Flatten(lines, x, y), Offset(lines, y), below, below + |lines[y + 1]|);
    }
  }

  lemma MoveHorizontally(lines: seq<Line>, x: nat, y: nat)
    requires GoodCursor(lines, x, y)
    ensures Press(Flatten(lines, x, y), Left)
         == if x > 0 then Flatten(lines, x - 1, y)
            else if y > 0 then Flatten(lines, |lines[y - 1]|, y - 1)
            else Flatten(lines, x, y)
    ensures Press(Flatten(lines, x, y), Right)
         == if x < |lines[y]| then Flatten(lines, x + 1, y)
            else if y < |lines| - 1 then Flatten(lines, 0, y + 1)
            else Flatten(lines, x, y)
  {
    LineEndAt(lines, y, x);
  }

  class Editor {
    var lines: seq<Line>
    var cursorX: nat
    var cursorY: nat

    predicate Valid()
      reads this
    {
      GoodCursor(lines, cursorX, cursorY)
    }

    function View(): (f: Flat)
      reads this
      requires Valid()
      ensures f.Valid()
    {
      Flatten(lines, cursorX, cursorY)
    }

    constructor (lines: seq<Line>)
      requires lines != [] && NoBreaks(lines)
      ensures Valid() && this.lines == lines && cursorX == 0 && cursorY == 0 && View() == Flat(Join(lines), 0)
    {
      this.lines, cursorX, cursorY := lines, 0, 0;
    }

    method InsertChar(c: ascii)
      requires Valid()
      modifies this
      ensures Valid() && View() == Press(old(View()), Type(c))
    {
      if c == LF {
        InsertNewline();
        return;
      }
      InsertInLine(lines, cursorX, cursorY, c);
      lines := lines[cursorY := lines[cursorY][..cursorX] + [c] + lines[cursorY][cursorX..]];
      cursorX := cursorX + 1;
    }

    method InsertNewline()
      requires Valid()
      modifies this
      ensures Valid() && View() == Press(old(View()), Type(LF))
    {
      BreakLine(lines, cursorX, cursorY);
      var rest := lines[cursorY][cursorX..];
      ghost var was := lines;
      lines := lines[cursorY := lines[cursorY][..cursorX]];
      cursorY := cursorY + 1;
      lines := lines[..cursorY] + [rest] + lines[cursorY..];
      assert lines == was[..cursorY - 1] + [was[cursorY - 1][..cursorX], rest] + was[cursorY..];
      cursorX := 0;
    }

    method BackspaceKey()
      requires Valid()
      modifies this
      ensures Valid() && View() == Press(old(View()), Backspace)
    {
      if cursorX > 0 {
        DeleteInLine(lines, cursorX, cursorY);
        cursorX := cursorX - 1;
        lines := lines[cursorY := lines[cursorY][..cursorX] + lines[cursorY][cursorX + 1..]];
      } else if cursorY > 0 {
        MergeLines(lines, cursorY);
        RemoveThenAppend(lines, cursorY);
        var current := lines[cursorY];
        lines := lines[..cursorY] + lines[cursorY + 1..];
        cursorY := cursorY - 1;
        cursorX := |lines[cursorY]|;
        lines := lines[cursorY := lines[cursorY] + current];
      }
    }

    method MoveLeft()
      requires Valid()
      modifies this`cursorX, this`cursorY
      ensures Valid() && View() == Press(old(View()), Left)
    {
      MoveHorizontally(lines, cursorX, cursorY);
      if cursorX > 0 {
        cursorX := cursorX - 1;
      } else if cursorY > 0 {
        cursorY := cursorY - 1;
        cursorX := |lines[cursorY]|;
      }
    }

    method MoveRight()
      requires Valid()
      modifies this`cursorX, this`cursorY
      ensures Valid() && View() == Press(old(View()), Right)
    {
      MoveHorizontally(lines, cursorX, cursorY);
      if cursorX < |lines[cursorY]| {
        cursorX := cursorX + 1;
      } else if cursorY < |lines| - 1 {
        cursorY := cursorY + 1;
        cursorX := 0;
      }
    }

    method MoveUp()
      requires Valid()
      modifies this`cursorX, this`cursorY
      ensures Valid() && View() == Press(old(View()), Up)
    {
      MoveUpward(lines, cursorX, cursorY);
      if cursorY > 0 {
        cursorY := cursorY - 1;
        var lineLen := |lines[cursorY]|;
        if cursorX > lineLen {
          cursorX := lineLen;
        }
      }
    }

    method MoveDown()
      requires Valid()
      modifies this`cursorX, this`cursorY
      ensures Valid() && View() == Press(old(View()), Down)
    {
      MoveDownward(lines, cursorX, cursorY);
      if cursorY < |lines| - 1 {
        cursorY := cursorY + 1;
        var lineLen := |lines[cursorY]|;
        if cursorX > lineLen {
          cursorX := lineLen;
        }
      }
    }

    /** Any sequence of keys keeps the cursor in bounds and acts like the same keys on a flat text. */
    method Edit(keys: seq<Key>)
      requires Valid()
      modifies this
      ensures Valid() && View() == PressAll(old(View()), keys)
    {
      for i := 0 to |keys|
        invariant Valid() && View() == PressAll(old(View()), keys[..i])
      {
        assert keys[..i + 1][..i] == keys[..i];
        match keys[i]
        case Type(c) => InsertChar(c);
        case Backspace => BackspaceKey();
        case Left => MoveLeft();
        case Right => MoveRight();
        case Up => MoveUp();
        case Down => MoveDown();
      }
      assert keys[..|keys|] == keys;
    }
  }
}
