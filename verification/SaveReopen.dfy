/** Leaving the editor saves the text as a file; opening the file again rebuilds the lines. */
module SaveReopen {
  import opened Basics
  import opened Bytes
  import opened Disk
  import opened Layout
  import opened Directory
  import opened Volume
  import St = Storage
  import FS = FileSystem
  import opened Ledger
  import opened Refinement
  import Rn = Runs
  import opened Text
  import Ed = Editor

  // ----- str::lines -----

  function StripCr(line: Line): Line {
    if line != [] && line[|line| - 1] == CR then line[..|line| - 1] else line
  }

  /** The lines of a text: a final line feed does not start a line, and CR before LF is dropped. */
  function LinesOf(text: seq<ascii>): seq<Line>
    decreases |text|
  {
    if text == [] then []
    else
      var end := LineEnd(text, 0);
      if end == |text| then [text] else [StripCr(text[..end])] + LinesOf(text[end + 1..])
  }

  /** The lines an editor starts with: at least one. */
  function OpenLines(text: seq<ascii>): (lines: seq<Line>)
    ensures lines != []
  {
    if LinesOf(text) == [] then [[]] else LinesOf(text)
  }

  lemma {:induction false} LinesHaveNoBreaks(text: seq<ascii>)
    ensures NoBreaks(LinesOf(text))
    decreases |text|
  {
    if text == [] {
    } else {
      var end := LineEnd(text, 0);
      LineEndHasNoBreak(text, 0);
      if end < |text| {
        LinesHaveNoBreaks(text[end + 1..]);
      }
    }
  }

  lemma {:induction false} LineEndHasNoBreak(text: seq<ascii>, pos: nat)
    requires pos <= |text|
    ensures LF !in text[pos..LineEnd(text, pos)]
    decreases |text| - pos
  {
    if pos == |text| || text[pos] == LF {
    } else {
      LineEndHasNoBreak(text, pos + 1);
      assert text[pos..LineEnd(text, pos)] == [text[pos]] + text[pos + 1..LineEnd(text, pos)];
    }
  }

  // ----- Joining and splitting again -----

  /** What is left of the lines once they have been joined and split. */
  function Kept(lines: seq<Line>): seq<Line>
    requires lines != []
  {
    if |lines| == 1 then (if lines[0] == [] then [] else lines) else [StripCr(lines[0])] + Kept(lines[1..])
  }

  lemma {:induction false} SplitJoin(lines: seq<Line>)
    requires lines != [] && NoBreaks(lines)
    ensures LinesOf(Join(lines)) == Kept(lines)
  {
    var text, first := Join(lines), lines[0];
    if |lines| == 1 {
      assert text == first;
      LineEndUnique(text, 0, |first|);
    } else {
      var rest := Join(lines[1..]);
      assert text == first + [LF] + rest;
      assert text[..|first|] == first && text[|first| + 1..] == rest;
      LineEndUnique(text, 0, |first|);
      SplitJoin(lines[1..]);
    }
  }

  predicate EndsInCr(line: Line) {
    line != [] && line[|line| - 1] == CR
  }

  /** Only the last line may end in a carriage return. */
  predicate NoInnerCr(lines: seq<Line>) {
    forall i :: 0 <= i < |lines| - 1 ==> !EndsInCr(lines[i])
  }

  /** Without inner carriage returns, exactly an empty last line is lost. */
  lemma {:induction false} KeptLines(lines: seq<Line>)
    requires lines != [] && NoInnerCr(lines)
    ensures Kept(lines) == if lines[|lines| - 1] == [] then lines[..|lines| - 1] else lines
  {
    if |lines| <= 1 {
    } else {
      KeptLines(lines[1..]);
      assert !EndsInCr(lines[0]);
    }
  }

  /** A line before the last loses exactly a final carriage return. */
  lemma {:induction false} KeptLine(lines: seq<Line>, i: nat)
    requires i < |lines| - 1
    ensures i < |Kept(lines)|
    ensures EndsInCr(lines[i]) ==> Kept(lines)[i] + [CR] == lines[i]
    ensures !EndsInCr(lines[i]) ==> Kept(lines)[i] == lines[i]
  {
    if i == 0 {
    } else {
      KeptLine(lines[1..], i - 1);
    }
  }

  /** The last line is kept as it is, unless it is empty. */
  lemma {:induction false} KeptLastLine(lines: seq<Line>)
    requires lines != [] && lines[|lines| - 1] != []
    ensures |Kept(lines)| == |lines| && Kept(lines)[|lines| - 1] == lines[|lines| - 1]
  {
    if |lines| == 1 {
    } else {
      KeptLastLine(lines[1..]);
    }
  }

  lemma {:induction false} KeptLength(lines: seq<Line>)
    requires lines != []
    ensures |Kept(lines)| == if lines[|lines| - 1] == [] then |lines| - 1 else |lines|
  {
    if |lines| <= 1 {
    } else {
      KeptLength(lines[1..]);
    }
  }

  /**
   * Saving and reopening gives the same lines exactly when no line but the last ends in a carriage
   * return and the last of several lines is not empty.
   */
  lemma ReopenIsIdentity(lines: seq<Line>)
    requires lines != [] && NoBreaks(lines)
    ensures OpenLines(Join(lines)) == lines <==> NoInnerCr(lines) && (|lines| == 1 || lines[|lines| - 1] != [])
  {
    SplitJoin(lines);
    KeptLength(lines);
    if NoInnerCr(lines) {
      KeptLines(lines);
    } else {
      var i :| 0 <= i < |lines| - 1 && EndsInCr(lines[i]);
      KeptLine(lines, i);
    }
  }

  /**
   * What reopening gives, line by line: a final carriage return is dropped from every line but the last, and an empty
   * last line is dropped unless it is the only one. Nothing else changes.
   */
  lemma ReopenExactly(lines: seq<Line>)
    requires lines != [] && NoBreaks(lines)
    ensures var last, again := lines[|lines| - 1], OpenLines(Join(lines));
      && |again| == (if last == [] && |lines| > 1 then |lines| - 1 else |lines|)
      && (forall i :: 0 <= i < |lines| - 1 ==>
            if EndsInCr(lines[i]) then again[i] + [CR] == lines[i] else again[i] == lines[i])
      && (|again| == |lines| ==> again[|lines| - 1] == last)
  {
    SplitJoin(lines);
    KeptLength(lines);
    forall i | 0 <= i < |lines| - 1
      ensures i < |Kept(lines)|
      ensures if EndsInCr(lines[i]) then Kept(lines)[i] + [CR] == lines[i] else Kept(lines)[i] == lines[i]
    {
      KeptLine(lines, i);
    }
    if lines[|lines| - 1] != [] {
      KeptLastLine(lines);
    }
  }

  /** Otherwise, if carriage returns are not the reason, just the empty last line is dropped. */
  lemma ReopenDropsOneLine(lines: seq<Line>)
    requires |lines| >= 2 && NoBreaks(lines) && NoInnerCr(lines) && lines[|lines| - 1] == []
    ensures OpenLines(Join(lines)) == lines[..|lines| - 1]
  {
    SplitJoin(lines);
    KeptLines(lines);
  }

  // ----- Through the file system -----

  function ToBytes(text: seq<ascii>): (bs: seq<byte>)
    ensures |bs| == |text| && forall i :: 0 <= i < |text| ==> bs[i] == text[i] as int
  {
    seq(|text|, i requires 0 <= i < |text| => text[i] as int)
  }

  predicate IsAscii(bs: seq<byte>) {
    forall i :: 0 <= i < |bs| ==> bs[i] < 128
  }

  /** `String::from_utf8_lossy`, on bytes that are ASCII. */
  function FromBytes(bs: seq<byte>): (text: seq<ascii>)
    requires IsAscii(bs)
    ensures |text| == |bs|
  {
    seq(|bs|, i requires 0 <= i < |bs| => bs[i] as char)
  }

  lemma BytesRoundTrip(text: seq<ascii>)
    ensures IsAscii(ToBytes(text)) && FromBytes(ToBytes(text)) == text
  {
  }

  /** What saving does: overwrite the file if there is one, create it otherwise. */
  function SaveOp(l: Ledger, name: FileName, ext: Extension, contents: seq<byte>): Op {
    if Find(l, name, ext).Some? then Overwrite(name, ext, contents) else Create(name, ext, contents)
  }

  /** There is room for `len` bytes under that name. */
  predicate Room(b: Bpb, l: Ledger, name: FileName, ext: Extension, len: nat)
    requires 1 <= b.sectorsPerCluster
  {
    match Find(l, name, ext)
    case Some(i) => St.ClustersNeeded(b, len) <= |l.free| + |l.records[i].chain|
    case None => EmptySlot(l).Some? && St.ClustersNeeded(b, len) <= |l.free|
  }

  /** The slot that saving writes. */
  function SaveSlot(l: Ledger, name: FileName, ext: Extension): Option<nat> {
    if Find(l, name, ext).Some? then Find(l, name, ext) else EmptySlot(l)
  }

  /** A save succeeds exactly when there is room. */
  lemma SaveSucceeds(b: Bpb, d: Image, name: FileName, ext: Extension, contents: seq<byte>)
    requires Inv(b, d)
    ensures var l := LedgerOf(b, d);
      Apply(b, l, SaveOp(l, name, ext, contents)).outcome == St.Ok <==> Room(b, l, name, ext, |contents|)
  {
    Rn.LedgerAddsUp(b, d, name, ext);
  }

  /** A save that succeeds has stored the contents in that slot and left all other files alone. */
  lemma SaveStores(b: Bpb, d: Image, name: FileName, ext: Extension, contents: seq<byte>)
    requires Inv(b, d)
    requires Apply(b, LedgerOf(b, d), SaveOp(LedgerOf(b, d), name, ext, contents)).outcome == St.Ok
    ensures var l := LedgerOf(b, d);
      var l' := Apply(b, l, SaveOp(l, name, ext, contents)).ledger;
      && SaveSlot(l, name, ext).Some?
      && FilesOf(l') == FilesOf(l)[SaveSlot(l, name, ext).value := St.NewFile(name, ext, contents)]
      && (!Reserved(name) ==> Contents(l', name, ext) == Some(contents[..St.StoredSize(|contents|)]))
  {
    var l := LedgerOf(b, d);
    if Find(l, name, ext).Some? {
      FoundIsNotReserved(b, d, name, ext);
    }
    if !Reserved(name) {
      Rn.ReadsOwnWrite(b, l, SaveOp(l, name, ext, contents));
    }
  }

  lemma FoundIsNotReserved(b: Bpb, d: Image, name: FileName, ext: Extension)
    requires Inv(b, d) && Find(LedgerOf(b, d), name, ext).Some?
    ensures !Reserved(name)
  {
    var i := Find(LedgerOf(b, d), name, ext).value;
    assert FilesOf(LedgerOf(b, d))[i] == Files(b, d)[i];
    Rn.NoReservedNames(b, d, i);
  }

  /** The save branch of the editor. The outcome, which the editor ignores, and the whole new volume are determined. */
  method Save(fs: FS.Fat16FileSystem, name: FileName, ext: Extension, editor: Ed.Editor) returns (r: St.Outcome)
    requires editor.Valid() && Inv(fs.bpb, fs.drive.sectors)
    requires var l := LedgerOf(fs.bpb, fs.drive.sectors);
      Answered(fs.bpb, |fs.drive.sectors|, l, SaveOp(l, name, ext, ToBytes(Join(editor.lines))))
    modifies fs.drive
    ensures |fs.drive.sectors| == |old(fs.drive.sectors)| && Inv(fs.bpb, fs.drive.sectors)
    ensures var text := Join(old(editor.lines));
      |ToBytes(text)| == |text| && forall i :: 0 <= i < |text| ==> ToBytes(text)[i] == text[i] as int
    ensures var l, contents := LedgerOf(fs.bpb, old(fs.drive.sectors)), ToBytes(Join(old(editor.lines)));
      && Applied(LedgerOf(fs.bpb, fs.drive.sectors), r) == Apply(fs.bpb, l, SaveOp(l, name, ext, contents))
      && (r == St.Ok <==> Room(fs.bpb, l, name, ext, |contents|))
      && (r == St.Ok ==>
            && SaveSlot(l, name, ext).Some?
            && Files(fs.bpb, fs.drive.sectors)
               == Files(fs.bpb, old(fs.drive.sectors))[SaveSlot(l, name, ext).value := St.NewFile(name, ext, contents)])
      && (r == St.Ok && !Reserved(name) ==>
            Contents(LedgerOf(fs.bpb, fs.drive.sectors), name, ext) == Some(contents[..St.StoredSize(|contents|)]))
  {
    ghost var b, d := fs.bpb, fs.drive.sectors;
    var contents := ToBytes(Join(editor.lines));
    ScansAgree(b, d, name, ext);
    SaveSucceeds(b, d, name, ext, contents);
    if Room(b, LedgerOf(b, d), name, ext, |contents|) {
      SaveStores(b, d, name, ext, contents);
    }
    var entry := fs.FindFile(name, ext);
    if entry.Some? {
      r := Rn.PerformOverwrite(fs, name, ext, contents);
    } else {
      r := Rn.PerformCreate(fs, name, ext, contents);
    }
  }

  /** The bytes the editor starts from: the file of that name, or nothing. */
  function OpenedBytes(l: Ledger, name: FileName, ext: Extension): seq<byte> {
    if Contents(l, name, ext).Some? then Contents(l, name, ext).value else []
  }

  /** The start of the editor. Files that are not ASCII are not modelled. */
  method Open(fs: FS.Fat16FileSystem, name: FileName, ext: Extension) returns (r: Option<Ed.Editor>)
    requires Inv(fs.bpb, fs.drive.sectors)
    ensures var data := OpenedBytes(LedgerOf(fs.bpb, fs.drive.sectors), name, ext);
      r.Some? == IsAscii(data)
      && (r.Some? ==> fresh(r.value) && r.value.Valid() && r.value.lines == OpenLines(FromBytes(data))
                      && r.value.View().pos == 0)
  {
    var found := Rn.Fetch(fs, name, ext);
    var data := if found.Some? then found.value else [];
    if !IsAscii(data) {
      return None;
    }
    var lines := OpenLines(FromBytes(data));
    LinesHaveNoBreaks(FromBytes(data));
    var editor := new Ed.Editor(lines);
    r := Some(editor);
  }

  lemma SavedTextReopens(text: seq<ascii>)
    requires |text| < 0x1_0000_0000
    ensures var data := ToBytes(text)[..St.StoredSize(|ToBytes(text)|)];
      IsAscii(data) && FromBytes(data) == text
  {
    BytesRoundTrip(text);
    assert ToBytes(text)[..|text|] == ToBytes(text);
  }

  /**
   * Saving and opening again. If there is room, the text comes back as the lines that joining and splitting leaves; if
   * not, the editor opens whatever the failed save left under that name.
   */
  method SaveThenOpen(fs: FS.Fat16FileSystem, name: FileName, ext: Extension, editor: Ed.Editor)
    returns (r: St.Outcome, reopened: Option<Ed.Editor>)
    requires editor.Valid() && Inv(fs.bpb, fs.drive.sectors)
    requires var l := LedgerOf(fs.bpb, fs.drive.sectors);
      Answered(fs.bpb, |fs.drive.sectors|, l, SaveOp(l, name, ext, ToBytes(Join(editor.lines))))
    modifies fs.drive
    ensures Inv(fs.bpb, fs.drive.sectors)
    ensures var l, text := LedgerOf(fs.bpb, old(fs.drive.sectors)), Join(old(editor.lines));
      var data := OpenedBytes(LedgerOf(fs.bpb, fs.drive.sectors), name, ext);
      && Applied(LedgerOf(fs.bpb, fs.drive.sectors), r) == Apply(fs.bpb, l, SaveOp(l, name, ext, ToBytes(text)))
      && (r == St.Ok <==> Room(fs.bpb, l, name, ext, |text|))
      && reopened.Some? == IsAscii(data)
      && (reopened.Some? ==> reopened.value.Valid() && reopened.value.lines == OpenLines(FromBytes(data)))
    ensures var l, text := LedgerOf(fs.bpb, old(fs.drive.sectors)), Join(old(editor.lines));
      Room(fs.bpb, l, name, ext, |text|) && !Reserved(name) && |text| < 0x1_0000_0000 ==>
        reopened.Some? && reopened.value.lines == OpenLines(text)
  {
    ghost var text := Join(editor.lines);
    r := Save(fs, name, ext, editor);
    if |text| < 0x1_0000_0000 {
      SavedTextReopens(text);
    }
    reopened := Open(fs, name, ext);
  }
}
