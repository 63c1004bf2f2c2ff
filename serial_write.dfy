/**
 * The serial CSV writer: generate every line while summing their lengths
 * into the file size, then copy the lines back to back into a buffer of
 * exactly that size (the memory-mapped file).
 */
module SerialWrite {
  import opened Csv

  /** Lines 0 .. i - 1 are generated: line k is the text of the k-th row. */
  ghost predicate GeneratedUpTo(ls: seq<Str>, rands: seq<seq<nat>>, i: nat)
    requires i <= |ls| && i <= |rands|
    requires forall k :: 0 <= k < |rands| ==> |rands[k]| == NCOLS
  {
    forall k :: 0 <= k < i ==> ls[k].Valid() && Payload(ls[k]) == LineText(rands[k])
  }

  /** Storing the generated line i extends the generated prefix and the byte count. */
  lemma GenerateStep(before: seq<Str>, rands: seq<seq<nat>>, i: nat, line: Str)
    requires i < |before| && i < |rands|
    requires forall k :: 0 <= k < |rands| ==> |rands[k]| == NCOLS
    requires GeneratedUpTo(before, rands, i)
    requires line.Valid() && Payload(line) == LineText(rands[i])
    ensures GeneratedUpTo(before[i := line], rands, i + 1)
    ensures TotalLength(before[i := line][..i + 1]) == TotalLength(before[..i]) + line.length
  {
    var after := before[i := line];
    assert after[..i + 1][..i] == before[..i];
  }

  /** The generation loop of main: line i from the i-th row of random values,
      file_size accumulating every line's length. */
  method GenerateData(numLines: nat, rands: seq<seq<nat>>) returns (lines: array<Str>, fileSize: nat)
    requires |rands| == numLines
    requires forall i :: 0 <= i < numLines ==> |rands[i]| == NCOLS
    ensures fresh(lines) && lines.Length == numLines
    ensures AllValid(lines[..])
    ensures forall i :: 0 <= i < numLines ==> Payload(lines[i]) == LineText(rands[i])
    ensures fileSize == TotalLength(lines[..])
  {
    lines := new Str[numLines](_ => EmptyStr);
    fileSize := 0;
    var i := 0;
    while i < numLines
      invariant 0 <= i <= numLines
      invariant GeneratedUpTo(lines[..], rands, i)
      invariant fileSize == TotalLength(lines[..i])
    {
      var line := GenerateLine(rands[i]);
      GenerateStep(lines[..], rands, i, line);
      lines[i] := line;
      fileSize := fileSize + line.length;
      i := i + 1;
    }
    assert lines[..numLines] == lines[..];
  }

  /** The copy loop of main: each line lands at running_total_bytes, which
      then moves past it; the bytes of earlier lines are never touched again. */
  method CopyLines(fileBuf: array<char>, lines: array<Str>) returns (runningTotalBytes: nat)
    requires AllValid(lines[..])
    requires fileBuf.Length == TotalLength(lines[..])
    modifies fileBuf
    ensures runningTotalBytes == fileBuf.Length
    ensures fileBuf[..] == Flatten(Payloads(lines[..]))
  {
    ghost var ls := lines[..];
    ghost var orig := fileBuf[..];
    SplicedNone(orig, 0, ls, 0);
    assert ls[0..|ls|] == ls;
    runningTotalBytes := 0;
    var i := 0;
    while i < lines.Length
      invariant Copying(fileBuf[..], orig, 0, ls, 0, i, |ls|, runningTotalBytes)
    {
      var line := lines[i];
      CopyLine(fileBuf, orig, 0, ls, line, 0, i, |ls|, runningTotalBytes);
      runningTotalBytes := runningTotalBytes + line.length;
      i := i + 1;
    }
    SplicedAll(orig, ls);
  }

  /** The serial program end to end (file plumbing aside): the file holds
      exactly the generated lines in order. */
  method SerialWrite(numLines: nat, rands: seq<seq<nat>>) returns (fileBuf: array<char>)
    requires |rands| == numLines
    requires forall i :: 0 <= i < numLines ==> |rands[i]| == NCOLS
    ensures fileBuf[..] == FileText(rands)
  {
    var lines, fileSize := GenerateData(numLines, rands);
    LinesText(lines[..], rands);
    fileBuf := new char[fileSize](_ => '\0');
    var written := CopyLines(fileBuf, lines);
  }
}
