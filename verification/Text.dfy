/** Lines of text, the flat text they stand for, and the line structure read off the flat text. */
module Text {

  /** Characters of one byte, for which a byte index is a character index. */
  type ascii = c: char | c < 128 as char witness 'a'
  type Line = seq<ascii>

  const LF: ascii := '\n'
  const CR: ascii := '\r'

  predicate NoBreaks(lines: seq<Line>) {
    forall i :: 0 <= i < |lines| ==> LF !in lines[i]
  }

  /** Every line followed by a line feed. */
  function Before(lines: seq<Line>): seq<ascii> {
    if lines == [] then [] else Before(lines[..|lines| - 1]) + lines[|lines| - 1] + [LF]
  }

  /** Every line preceded by a line feed. */
  function After(lines: seq<Line>): seq<ascii> {
    if lines == [] then [] else [LF] + lines[0] + After(lines[1..])
  }

  /** `lines.join("\n")` */
  function Join(lines: seq<Line>): seq<ascii> {
    if lines == [] then [] else lines[0] + After(lines[1..])
  }

  /** The text around line `y`. */
  lemma {:induction false} JoinAround(lines: seq<Line>, y: nat)
    requires y < |lines|
    ensures Join(lines) == Before(lines[..y]) + lines[y] + After(lines[y + 1..])
  {
    if y == 0 {
    } else {
      JoinAround(lines, y - 1);
      assert lines[..y][..y - 1] == lines[..y - 1];
      assert lines[y..][1..] == lines[y + 1..];
    }
  }

  /** Where line `y` starts in the joined text. */
  function Offset(lines: seq<Line>, y: nat): nat
    requires y <= |lines|
  {
    if y == 0 then 0 else Offset(lines, y - 1) + |lines[y - 1]| + 1
  }

  lemma {:induction false} OffsetIsBefore(lines: seq<Line>, y: nat)
    requires y <= |lines|
    ensures Offset(lines, y) == |Before(lines[..y])|
  {
    if y == 0 {
    } else {
      OffsetIsBefore(lines, y - 1);
      assert lines[..y][..y - 1] == lines[..y - 1];
    }
  }

  // ----- Line structure of a flat text -----

  /** Where the line that contains offset `pos` starts. */
  function LineStart(text: seq<ascii>, pos: nat): (s: nat)
    requires pos <= |text|
    ensures s <= pos
  {
    if pos == 0 || text[pos - 1] == LF then pos else LineStart(text, pos - 1)
  }

  /** Where the line that contains offset `pos` ends. */
  function LineEnd(text: seq<ascii>, pos: nat): (e: nat)
    requires pos <= |text|
    ensures pos <= e <= |text|
    decreases |text| - pos
  {
    if pos == |text| || text[pos] == LF then pos else LineEnd(text, pos + 1)
  }

  lemma {:induction false} LineStartUnique(text: seq<ascii>, pos: nat, s: nat)
    requires s <= pos <= |text| && LF !in text[s..pos] && (s > 0 ==> text[s - 1] == LF)
    ensures LineStart(text, pos) == s
  {
    if s == pos {
    } else {
      assert text[pos - 1] == text[s..pos][pos - 1 - s];
      assert text[s..pos - 1] == text[s..pos][..pos - 1 - s];
      LineStartUnique(text, pos - 1, s);
    }
  }

  lemma {:induction false} LineEndUnique(text: seq<ascii>, pos: nat, e: nat)
    requires pos <= e <= |text| && LF !in text[pos..e] && (e < |text| ==> text[e] == LF)
    ensures LineEnd(text, pos) == e
    decreases e - pos
  {
    if pos == e {
    } else {
      assert text[pos] == text[pos..e][0];
      assert text[pos + 1..e] == text[pos..e][1..];
      LineEndUnique(text, pos + 1, e);
    }
  }

  /** Line `y` of a joined text starts behind the lines before it. */
  lemma LineStartAt(lines: seq<Line>, y: nat, x: nat)
    requires NoBreaks(lines) && y < |lines| && x <= |lines[y]|
    ensures Offset(lines, y) + x <= |Join(lines)| && LineStart(Join(lines), Offset(lines, y) + x) == Offset(lines, y)
  {
    JoinAround(lines, y);
    OffsetIsBefore(lines, y);
    var text, before := Join(lines), Before(lines[..y]);
    var start := |before|;
    assert text[start..start + x] == lines[y][..x];
    if y > 0 {
      assert before[start - 1] == LF;
    }
    LineStartUnique(text, start + x, start);
  }

  /** Line `y` of a joined text ends after its own length. */
  lemma LineEndAt(lines: seq<Line>, y: nat, x: nat)
    requires NoBreaks(lines) && y < |lines| && x <= |lines[y]|
    ensures var end := Offset(lines, y) + |lines[y]|;
      && end <= |Join(lines)| && LineEnd(Join(lines), Offset(lines, y) + x) == end
      && (end == |Join(lines)| <==> y == |lines| - 1)
  {
    JoinAround(lines, y);
    OffsetIsBefore(lines, y);
    var text, start, end := Join(lines), Offset(lines, y), Offset(lines, y) + |lines[y]|;
    assert text[start + x..end] == lines[y][x..];
    if end < |text| {
      assert text[end] == After(lines[y + 1..])[0];
    }
    LineEndUnique(text, start + x, end);
  }
}
