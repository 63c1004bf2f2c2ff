/**
 * The threaded CSV writer: lines are split into chunks of `fac` lines; one
 * pool task per chunk generates its lines, a second round of tasks sums each
 * chunk's byte length, the sums are prefix-summed into offsets, and a third
 * round copies every chunk into the shared file buffer at its offset.
 *
 * The pool runs the tasks of a round on several threads. The model runs them
 * one after another in an arbitrary order (a schedule); that each task only
 * touches its own lines, its own offset slot or its own byte range is proved
 * below, which is what makes the order irrelevant.
 */
module ThreadedWrite {
  import opened Csv

  /** Threads per pool; a chunk is 8 * NUM_THREADS lines. */
  const NUM_THREADS: nat := 8

  /** A generated line and its 1-based line number. */
  datatype Line = Line(lineno: nat, line: Str)

  /** The Strings of a list of lines. */
  function Strs(ls: seq<Line>): (ss: seq<Str>)
    ensures |ss| == |ls|
    ensures forall i :: 0 <= i < |ls| ==> ss[i] == ls[i].line
  {
    seq(|ls|, i requires 0 <= i < |ls| => ls[i].line)
  }

  /*************************************************************************/
  /* Chunks                                                                */
  /*************************************************************************/

  /** num_tasks: the number of chunks, num_lines / fac rounded up. */
  function NumTasks(numLines: nat, fac: nat): (n: nat)
    requires fac > 0
    ensures numLines <= n * fac
    ensures numLines >= 1 ==> n >= 1 && (n - 1) * fac < numLines
    ensures numLines == 0 ==> n == 0
  {
    var q := numLines / fac;
    var r := numLines % fac;
    assert numLines == q * fac + r;
    if r == 0 then q else q + 1
  }

  /** start_lineno of chunk i: a multiple of fac whose chunk index is i. */
  function ChunkStart(i: nat, fac: nat): (s: nat)
    ensures fac > 0 ==> s % fac == 0 && s / fac == i
  {
    DivMultiple(fac, i);
    fac * i
  }

  lemma DivMultiple(fac: nat, i: nat)
    ensures fac > 0 ==> (fac * i) % fac == 0 && (fac * i) / fac == i
  {
    if fac > 0 {
      var q, r := (fac * i) / fac, (fac * i) % fac;
      assert fac * i == fac * q + r && 0 <= r < fac;
      assert fac * (i - q) == r by {
        assert fac * (i - q) == fac * i - fac * q;
      }
      MulOutsideUnit(fac, i - q);
    }
  }

  /** A positive factor times a non-zero integer is at least the factor away from 0. */
  lemma MulOutsideUnit(fac: int, d: int)
    requires fac > 0
    ensures d >= 1 ==> fac * d >= fac
    ensures d <= -1 ==> fac * d <= -fac
  {
    assert fac * d - fac == fac * (d - 1);
    assert fac * d + fac == fac * (d + 1);
  }

  /** end_lineno of chunk i: fac * (i + 1), cut back to num_lines, that is the
      smaller of the two. */
  function ChunkEnd(i: nat, fac: nat, numLines: nat): (e: nat)
    ensures e <= numLines && e <= fac * (i + 1)
    ensures e == numLines || e == fac * (i + 1)
  {
    if fac * (i + 1) > numLines then numLines else fac * (i + 1)
  }

  /** The chunks are non-empty, start at line 0, follow one another without
      gap or overlap, and the last one ends at the last line. */
  lemma ChunksPartition(numLines: nat, fac: nat, i: nat)
    requires fac > 0 && i < NumTasks(numLines, fac)
    ensures ChunkStart(0, fac) == 0
    ensures ChunkStart(i, fac) < ChunkEnd(i, fac, numLines) <= numLines
    ensures i + 1 < NumTasks(numLines, fac) ==> ChunkEnd(i, fac, numLines) == ChunkStart(i + 1, fac)
    ensures i + 1 == NumTasks(numLines, fac) ==> ChunkEnd(i, fac, numLines) == numLines
  {
    var n := NumTasks(numLines, fac);
    assert fac * i <= fac * (n - 1) by { MulMonotone(fac, i, n - 1); }
    if i + 1 < n {
      MulMonotone(fac, i + 1, n - 1);
    } else {
      assert fac * (i + 1) == n * fac;
    }
  }

  lemma MulMonotone(a: nat, x: nat, y: nat)
    requires x <= y
    ensures a * x <= a * y
  {
  }

  /** Every line lies in exactly one chunk, the chunk k / fac. */
  lemma LineInOneChunk(numLines: nat, fac: nat, k: nat, i: nat)
    requires fac > 0 && k < numLines
    ensures k / fac < NumTasks(numLines, fac)
    ensures ChunkStart(k / fac, fac) <= k < ChunkEnd(k / fac, fac, numLines)
    ensures ChunkStart(i, fac) <= k < ChunkEnd(i, fac, numLines) ==> i == k / fac
  {
    var c := k / fac;
    DivBounds(k, fac);
    ChunkOfLine(numLines, fac, k, c);
    if ChunkStart(i, fac) <= k < ChunkEnd(i, fac, numLines) {
      UniqueChunk(fac, k, i, c);
    }
  }

  lemma DivBounds(k: nat, fac: nat)
    requires fac > 0
    ensures fac * (k / fac) <= k < fac * (k / fac) + fac
  {
    assert k == fac * (k / fac) + k % fac;
  }

  /** The chunk c whose line range [fac * c, fac * c + fac) holds line k exists and holds k. */
  lemma ChunkOfLine(numLines: nat, fac: nat, k: nat, c: nat)
    requires fac > 0 && k < numLines
    requires fac * c <= k < fac * c + fac
    ensures c < NumTasks(numLines, fac)
    ensures ChunkStart(c, fac) <= k < ChunkEnd(c, fac, numLines)
  {
    var n := NumTasks(numLines, fac);
    if c >= n {
      MulMonotone(fac, n, c);
      assert false;
    }
    assert fac * (c + 1) == fac * c + fac;
  }

  /** Two chunks holding the same line are the same chunk. */
  lemma UniqueChunk(fac: nat, k: nat, i: nat, c: nat)
    requires fac > 0
    requires fac * i <= k < fac * (i + 1)
    requires fac * c <= k < fac * c + fac
    ensures i == c
  {
    assert fac * (i + 1) == fac * i + fac;
    assert fac * (c + 1) == fac * c + fac;
    if i < c {
      MulMonotone(fac, i + 1, c);
    } else if i > c {
      MulMonotone(fac, c + 1, i);
    }
  }

  /*************************************************************************/
  /* Phase 1: generating the lines                                         */
  /*************************************************************************/

  /** Line k as the generation leaves it: line number k + 1 and the line text
      made from the k-th row of random values. */
  ghost predicate Generated(l: Line, k: nat, rands: seq<seq<nat>>)
    requires k < |rands| && |rands[k]| == NCOLS
  {
    l.lineno == k + 1 && l.line.Valid() && Payload(l.line) == LineText(rands[k])
  }

  ghost predicate RandsShape(rands: seq<seq<nat>>, numLines: nat)
  {
    |rands| == numLines && forall i :: 0 <= i < numLines ==> |rands[i]| == NCOLS
  }

  /** generate_lines: lines start_lineno .. end_lineno - 1 get their number and
      text; no other line changes. */
  method GenerateLines(lines: array<Line>, start: nat, end: nat, rands: seq<seq<nat>>)
    requires start <= end <= lines.Length
    requires RandsShape(rands, lines.Length)
    modifies lines
    ensures forall k :: start <= k < end ==> Generated(lines[k], k, rands)
    ensures forall k :: 0 <= k < lines.Length && !(start <= k < end) ==> lines[k] == old(lines[k])
  {
    var i := start;
    while i < end
      invariant start <= i <= end
      invariant forall k :: start <= k < i ==> Generated(lines[k], k, rands)
      invariant forall k :: 0 <= k < lines.Length && !(start <= k < i) ==> lines[k] == old(lines[k])
    {
      var s := GenerateLine(rands[i]);
      lines[i] := Line(i + 1, s);
      i := i + 1;
    }
  }

  /** A schedule of a round of n tasks: every task index run once, in some order. */
  ghost predicate IsSchedule(order: seq<nat>, n: nat)
  {
    && |order| == n
    && (forall t :: 0 <= t < |order| ==> order[t] < n)
    && (forall c :: 0 <= c < n ==> c in order)
  }

  /** The first pool round: one generate_lines task per chunk, in schedule order. */
  method GeneratePhase(generated: array<Line>, fac: nat, rands: seq<seq<nat>>, order: seq<nat>)
    requires fac > 0
    requires RandsShape(rands, generated.Length)
    requires IsSchedule(order, NumTasks(generated.Length, fac))
    modifies generated
    ensures forall k :: 0 <= k < generated.Length ==> Generated(generated[k], k, rands)
  {
    var numLines := generated.Length;
    var n := NumTasks(numLines, fac);
    ghost var doneChunks: set<nat> := {};
    var t := 0;
    while t < |order|
      invariant 0 <= t <= |order|
      invariant forall c :: c in doneChunks <==> c in order[..t]
      invariant forall k :: 0 <= k < numLines && k / fac in doneChunks ==> Generated(generated[k], k, rands)
    {
      var c := order[t];
      ChunksPartition(numLines, fac, c);
      GenerateLines(generated, ChunkStart(c, fac), ChunkEnd(c, fac, numLines), rands);
      forall k | 0 <= k < numLines && k / fac == c
        ensures ChunkStart(c, fac) <= k < ChunkEnd(c, fac, numLines)
      {
        LineInOneChunk(numLines, fac, k, c);
      }
      doneChunks := doneChunks + {c};
      assert order[..t + 1] == order[..t] + [c];
      t := t + 1;
    }
    assert order[..|order|] == order;
    forall k | 0 <= k < numLines
      ensures k / fac in doneChunks
    {
      LineInOneChunk(numLines, fac, k, 0);
    }
  }

  /*************************************************************************/
  /* Sorting by line number                                                */
  /*************************************************************************/

  /** cmp_lines: negative, zero or positive as a's line number is below, equal
      to or above b's. */
  function CmpLines(a: Line, b: Line): (r: int)
    ensures r < 0 <==> a.lineno < b.lineno
    ensures r == 0 <==> a.lineno == b.lineno
    ensures r > 0 <==> a.lineno > b.lineno
  {
    a.lineno as int - b.lineno as int
  }

  /** What qsort with cmp_lines promises of its result. */
  ghost predicate SortedByCmp(s: seq<Line>)
  {
    forall i, j :: 0 <= i < j < |s| ==> CmpLines(s[i], s[j]) <= 0
  }

  /** A sequence with strictly increasing line numbers is the only ordering of
      its elements that cmp_lines accepts as sorted. */
  lemma {:induction false} SortedPermutationUnique(s: seq<Line>, t: seq<Line>)
    requires forall i, j :: 0 <= i < j < |s| ==> s[i].lineno < s[j].lineno
    requires SortedByCmp(t)
    requires multiset(t) == multiset(s)
    ensures t == s
    decreases |s|
  {
    assert |t| == |multiset(t)| == |multiset(s)| == |s|;
    if s != [] {
      SameHead(s, t);
      SameTailMultiset(s, t);
      SortedPermutationUnique(s[1..], t[1..]);
      assert s == [s[0]] + s[1..];
      assert t == [t[0]] + t[1..];
    }
  }

  /** The smallest line number of s comes first in both orderings. */
  lemma SameHead(s: seq<Line>, t: seq<Line>)
    requires s != [] && |t| == |s|
    requires forall i, j :: 0 <= i < j < |s| ==> s[i].lineno < s[j].lineno
    requires SortedByCmp(t)
    requires multiset(t) == multiset(s)
    ensures t[0] == s[0]
  {
    assert t[0] in multiset(s);
    var j :| 0 <= j < |s| && s[j] == t[0];
    assert s[0] in multiset(t);
    var i :| 0 <= i < |t| && t[i] == s[0];
    assert i == 0 || CmpLines(t[0], t[i]) <= 0;
  }

  /** Removing an equal head from two equal multisets leaves equal ones. */
  lemma SameTailMultiset(s: seq<Line>, t: seq<Line>)
    requires s != [] && t != [] && s[0] == t[0]
    requires multiset(t) == multiset(s)
    ensures multiset(t[1..]) == multiset(s[1..])
  {
    assert s == [s[0]] + s[1..];
    assert t == [t[0]] + t[1..];
    assert multiset(s) == multiset{s[0]} + multiset(s[1..]);
    assert multiset(t) == multiset{t[0]} + multiset(t[1..]);
    forall x
      ensures multiset(t[1..])[x] == multiset(s[1..])[x]
    {
      assert multiset(t)[x] == multiset{t[0]}[x] + multiset(t[1..])[x];
      assert multiset(s)[x] == multiset{s[0]}[x] + multiset(s[1..])[x];
    }
  }

  /** generate_lines numbers line k as k + 1, so the qsort with cmp_lines in
      main leaves every line where it is: whatever sorted permutation it
      returns is the array as generated. */
  lemma SortLeavesLinesInPlace(generated: seq<Line>, sorted: seq<Line>)
    requires forall k :: 0 <= k < |generated| ==> generated[k].lineno == k + 1
    requires multiset(sorted) == multiset(generated)
    requires SortedByCmp(sorted)
    ensures sorted == generated
  {
    SortedPermutationUnique(generated, sorted);
  }

  /*************************************************************************/
  /* Phase 2: chunk lengths and offsets                                    */
  /*************************************************************************/

  /** get_offset: *offset_ptr, here offsets[slot], is zeroed and then receives
      the sum of the lengths of lines start_lineno .. end_lineno - 1. */
  method GetOffset(lines: array<Line>, start: nat, end: nat, offsets: array<nat>, slot: nat)
    requires start <= end <= lines.Length && slot < offsets.Length
    modifies offsets
    ensures offsets[slot] == TotalLength(Strs(lines[..])[start..end])
    ensures forall k :: 0 <= k < offsets.Length && k != slot ==> offsets[k] == old(offsets[k])
  {
    ghost var ss := Strs(lines[..]);
    offsets[slot] := 0;
    var i := start;
    assert ss[start..start] == [];
    while i < end
      invariant start <= i <= end
      invariant offsets[slot] == TotalLength(ss[start..i])
      invariant forall k :: 0 <= k < offsets.Length && k != slot ==> offsets[k] == old(offsets[k])
    {
      TotalLengthSnoc(ss, start, i + 1);
      offsets[slot] := offsets[slot] + lines[i].line.length;
      i := i + 1;
    }
  }

  /** The byte length of chunk c. */
  function ChunkBytes(ss: seq<Str>, c: nat, fac: nat): nat
    requires fac > 0 && c < NumTasks(|ss|, fac)
  {
    ChunksPartition(|ss|, fac, c);
    TotalLength(ss[ChunkStart(c, fac)..ChunkEnd(c, fac, |ss|)])
  }

  /** The second pool round: one get_offset task per chunk, in schedule order. */
  method OffsetPhase(lines: array<Line>, offsets: array<nat>, fac: nat, order: seq<nat>)
    requires fac > 0
    requires offsets.Length == NumTasks(lines.Length, fac)
    requires IsSchedule(order, offsets.Length)
    modifies offsets
    ensures forall c :: 0 <= c < offsets.Length ==> offsets[c] == ChunkBytes(Strs(lines[..]), c, fac)
  {
    var numLines := lines.Length;
    ghost var doneChunks: set<nat> := {};
    var t := 0;
    while t < |order|
      invariant 0 <= t <= |order|
      invariant forall c :: c in doneChunks <==> c in order[..t]
      invariant forall c :: 0 <= c < offsets.Length && c in doneChunks ==> offsets[c] == ChunkBytes(Strs(lines[..]), c, fac)
    {
      var c := order[t];
      ChunksPartition(numLines, fac, c);
      GetOffset(lines, ChunkStart(c, fac), ChunkEnd(c, fac, numLines), offsets, c);
      doneChunks := doneChunks + {c};
      assert order[..t + 1] == order[..t] + [c];
      t := t + 1;
    }
    assert order[..|order|] == order;
  }

  function Sum(xs: seq<nat>): nat
  {
    if xs == [] then 0 else Sum(xs[..|xs| - 1]) + xs[|xs| - 1]
  }

  /** The in-place loop of main: offsets[i] becomes offsets[0] + ... + offsets[i]. */
  method PrefixSums(offsets: array<nat>)
    modifies offsets
    ensures forall i :: 0 <= i < offsets.Length ==> offsets[i] == Sum(old(offsets[..])[..i + 1])
  {
    ghost var orig := offsets[..];
    if offsets.Length > 0 {
      assert orig[..1][..0] == [];
    }
    var i := 1;
    while i < offsets.Length
      invariant offsets.Length == 0 || 1 <= i <= offsets.Length
      invariant forall k :: 0 <= k < i && k < offsets.Length ==> offsets[k] == Sum(orig[..k + 1])
      invariant forall k :: i <= k < offsets.Length ==> offsets[k] == orig[k]
    {
      assert orig[..i + 1][..i] == orig[..i];
      offsets[i] := offsets[i] + offsets[i - 1];
      i := i + 1;
    }
  }

  /** Prefix sums of the chunk lengths: entry c is the byte length of all
      lines up to the end of chunk c. */
  lemma {:induction false} PrefixOfChunkBytes(ss: seq<Str>, fac: nat, sums: seq<nat>, c: nat)
    requires fac > 0 && |sums| == NumTasks(|ss|, fac) && c < |sums|
    requires forall d :: 0 <= d < |sums| ==> sums[d] == ChunkBytes(ss, d, fac)
    ensures Sum(sums[..c + 1]) == TotalLength(ss[..ChunkEnd(c, fac, |ss|)])
  {
    ChunkBytesAdjacent(ss, fac, c);
    ByteStartAfter(ss, fac, c);
    SumSnoc(sums, c);
    if c > 0 {
      PrefixOfChunkBytes(ss, fac, sums, c - 1);
    }
  }

  lemma SumSnoc(xs: seq<nat>, i: nat)
    requires i < |xs|
    ensures Sum(xs[..i + 1]) == Sum(xs[..i]) + xs[i]
    ensures i == 0 ==> Sum(xs[..i]) == 0
  {
    assert xs[..i + 1][..i] == xs[..i];
  }

  /** Chunk c's bytes begin at 0 for chunk 0 and where chunk c - 1's lines end otherwise. */
  lemma ByteStartAfter(ss: seq<Str>, fac: nat, c: nat)
    requires fac > 0 && c < NumTasks(|ss|, fac)
    ensures c == 0 ==> ByteStart(ss, c, fac) == 0
    ensures c > 0 ==> ByteStart(ss, c, fac) == TotalLength(ss[..ChunkEnd(c - 1, fac, |ss|)])
  {
    ChunksPartition(|ss|, fac, c);
    if c > 0 {
      ChunksPartition(|ss|, fac, c - 1);
    } else {
      assert ss[..0] == [];
    }
  }

  /*************************************************************************/
  /* Phase 3: writing the chunks                                           */
  /*************************************************************************/

  /** write_to_file: the chunk's lines are copied back to back from `offset`
      on; exactly the bytes offset .. offset + (chunk length) - 1 change. */
  method WriteToFile(mapped: array<char>, lines: seq<Line>, start: nat, end: nat, offset: nat)
    requires start <= end <= |lines|
    requires AllValid(Strs(lines))
    requires offset + TotalLength(Strs(lines)[start..end]) <= mapped.Length
    modifies mapped
    ensures mapped[..] ==
      old(mapped[..offset])
      + Flatten(Payloads(Strs(lines)[start..end]))
      + old(mapped[offset + TotalLength(Strs(lines)[start..end])..])
  {
    ghost var ss := Strs(lines);
    ghost var orig := mapped[..];
    var runningTotalBytes: nat := 0;
    var i := start;
    SplicedNone(orig, offset, ss, start);
    while i < end
      invariant Copying(mapped[..], orig, offset, ss, start, i, end, runningTotalBytes)
    {
      var s := lines[i].line;
      CopyLine(mapped, orig, offset, ss, s, start, i, end, runningTotalBytes);
      runningTotalBytes := runningTotalBytes + s.length;
      i := i + 1;
    }
  }

  /** Where chunk c's bytes begin in the file. */
  function ByteStart(ss: seq<Str>, c: nat, fac: nat): nat
    requires fac > 0 && c < NumTasks(|ss|, fac)
  {
    ChunksPartition(|ss|, fac, c);
    TotalLength(ss[..ChunkStart(c, fac)])
  }

  /** The bytes chunk c must contribute: its lines back to back. */
  function ChunkText(ss: seq<Str>, c: nat, fac: nat): (x: seq<char>)
    requires fac > 0 && c < NumTasks(|ss|, fac) && AllValid(ss)
    ensures |x| == ChunkBytes(ss, c, fac)
  {
    ChunksPartition(|ss|, fac, c);
    FlattenLength(ss[ChunkStart(c, fac)..ChunkEnd(c, fac, |ss|)]);
    Flatten(Payloads(ss[ChunkStart(c, fac)..ChunkEnd(c, fac, |ss|)]))
  }

  /** Chunk c's bytes are in place in `buf`. */
  ghost predicate ChunkWritten(buf: seq<char>, ss: seq<Str>, c: nat, fac: nat)
    requires fac > 0 && c < NumTasks(|ss|, fac) && AllValid(ss)
  {
    ChunksPartition(|ss|, fac, c);
    var lo := ByteStart(ss, c, fac);
    && lo + ChunkBytes(ss, c, fac) <= |buf|
    && buf[lo..lo + ChunkBytes(ss, c, fac)] == ChunkText(ss, c, fac)
  }

  lemma TotalLengthPrefixMonotone(ss: seq<Str>, a: nat, b: nat)
    requires a <= b <= |ss|
    ensures TotalLength(ss[..a]) <= TotalLength(ss[..b])
  {
    TotalLengthAppend(ss[..a], ss[a..b]);
    assert ss[..a] + ss[a..b] == ss[..b];
  }

  /** Chunk c's byte range ends where chunk c + 1's begins: the offsets main
      computes (0 for chunk 0, offsets[c - 1] otherwise) are these starts. */
  lemma ChunkBytesAdjacent(ss: seq<Str>, fac: nat, c: nat)
    requires fac > 0 && c < NumTasks(|ss|, fac)
    ensures ByteStart(ss, c, fac) + ChunkBytes(ss, c, fac) == TotalLength(ss[..ChunkEnd(c, fac, |ss|)])
  {
    ChunksPartition(|ss|, fac, c);
    var lo, hi := ChunkStart(c, fac), ChunkEnd(c, fac, |ss|);
    TotalLengthAppend(ss[..lo], ss[lo..hi]);
    assert ss[..lo] + ss[lo..hi] == ss[..hi];
  }

  /** Two different chunks write disjoint byte ranges. */
  lemma ChunkWritesDisjoint(ss: seq<Str>, fac: nat, c: nat, d: nat)
    requires fac > 0 && c < d < NumTasks(|ss|, fac)
    ensures ByteStart(ss, c, fac) + ChunkBytes(ss, c, fac) <= ByteStart(ss, d, fac)
  {
    ChunkBytesAdjacent(ss, fac, c);
    ChunksPartition(|ss|, fac, c);
    ChunksPartition(|ss|, fac, d);
    MulMonotone(fac, c + 1, d);
    TotalLengthPrefixMonotone(ss, ChunkEnd(c, fac, |ss|), ChunkStart(d, fac));
  }

  /** A written prefix followed by the next lines' bytes is a longer written prefix. */
  lemma ConcatStep(buf: seq<char>, ss: seq<Str>, lo: nat, hi: nat, blo: nat, bhi: nat)
    requires lo <= hi <= |ss| && AllValid(ss)
    requires blo == TotalLength(ss[..lo]) && bhi == TotalLength(ss[..hi])
    requires blo <= bhi <= |buf|
    requires buf[..blo] == Flatten(Payloads(ss[..lo]))
    requires buf[blo..bhi] == Flatten(Payloads(ss[lo..hi]))
    ensures buf[..bhi] == Flatten(Payloads(ss[..hi]))
  {
    PrefixConcat(buf, blo, bhi, Flatten(Payloads(ss[..lo])), Flatten(Payloads(ss[lo..hi])));
    FlattenSplit(ss, lo, hi);
  }

  /** A buffer whose first blo bytes are x and next bhi - blo bytes are y
      starts with x + y. */
  lemma PrefixConcat(buf: seq<char>, blo: nat, bhi: nat, x: seq<char>, y: seq<char>)
    requires blo <= bhi <= |buf|
    requires buf[..blo] == x && buf[blo..bhi] == y
    ensures buf[..bhi] == x + y
  {
    assert buf[..bhi] == buf[..blo] + buf[blo..bhi];
  }

  /** What ChunkWritten says, spelt out with chunk c's line and byte bounds. */
  lemma ChunkWrittenBytes(buf: seq<char>, ss: seq<Str>, fac: nat, c: nat)
    requires fac > 0 && AllValid(ss) && c < NumTasks(|ss|, fac)
    requires ChunkWritten(buf, ss, c, fac)
    ensures ChunkStart(c, fac) <= ChunkEnd(c, fac, |ss|) <= |ss|
    ensures ByteStart(ss, c, fac) == TotalLength(ss[..ChunkStart(c, fac)])
    ensures ByteStart(ss, c, fac) <= TotalLength(ss[..ChunkEnd(c, fac, |ss|)]) <= |buf|
    ensures buf[ByteStart(ss, c, fac)..TotalLength(ss[..ChunkEnd(c, fac, |ss|)])]
      == Flatten(Payloads(ss[ChunkStart(c, fac)..ChunkEnd(c, fac, |ss|)]))
  {
    ChunksPartition(|ss|, fac, c);
    ChunkBytesAdjacent(ss, fac, c);
  }

  /** Once chunks 0..c are written, the buffer starts with every line up to
      the end of chunk c, in order. */
  lemma {:induction false} AllChunksWritten(buf: seq<char>, ss: seq<Str>, fac: nat, c: nat)
    requires fac > 0 && AllValid(ss) && c < NumTasks(|ss|, fac)
    requires AllChunksInPlace(buf, ss, fac)
    ensures PrefixWritten(buf, ss, ChunkEnd(c, fac, |ss|))
  {
    assert ChunkWritten(buf, ss, c, fac);
    if c == 0 {
      FirstChunkWritten(buf, ss, fac);
    } else {
      AllChunksWritten(buf, ss, fac, c - 1);
      NextChunkWritten(buf, ss, fac, c);
    }
  }

  /** The buffer starts with the text of lines 0 .. e - 1. */
  ghost predicate PrefixWritten(buf: seq<char>, ss: seq<Str>, e: nat)
    requires AllValid(ss)
  {
    && e <= |ss|
    && TotalLength(ss[..e]) <= |buf|
    && buf[..TotalLength(ss[..e])] == Flatten(Payloads(ss[..e]))
  }

  lemma FirstChunkWritten(buf: seq<char>, ss: seq<Str>, fac: nat)
    requires fac > 0 && AllValid(ss) && 0 < NumTasks(|ss|, fac)
    requires ChunkWritten(buf, ss, 0, fac)
    ensures PrefixWritten(buf, ss, ChunkEnd(0, fac, |ss|))
  {
    ChunkWrittenBytes(buf, ss, fac, 0);
    var hi := ChunkEnd(0, fac, |ss|);
    assert ss[..0] == [];
    assert Payloads(ss[..0]) == [];
    ConcatStep(buf, ss, 0, hi, 0, TotalLength(ss[..hi]));
  }

  lemma NextChunkWritten(buf: seq<char>, ss: seq<Str>, fac: nat, c: nat)
    requires fac > 0 && AllValid(ss) && 0 < c < NumTasks(|ss|, fac)
    requires PrefixWritten(buf, ss, ChunkEnd(c - 1, fac, |ss|))
    requires ChunkWritten(buf, ss, c, fac)
    ensures PrefixWritten(buf, ss, ChunkEnd(c, fac, |ss|))
  {
    ChunkWrittenBytes(buf, ss, fac, c);
    ChunksPartition(|ss|, fac, c - 1);
    var lo, hi := ChunkStart(c, fac), ChunkEnd(c, fac, |ss|);
    ConcatStep(buf, ss, lo, hi, TotalLength(ss[..lo]), TotalLength(ss[..hi]));
  }

  /** `after` agrees with `before` everywhere outside [wlo, whi). */
  ghost predicate SameOutside(before: seq<char>, after: seq<char>, wlo: nat, whi: nat)
  {
    && |before| == |after| && wlo <= whi <= |before|
    && forall k :: 0 <= k < |before| && !(wlo <= k < whi) ==> after[k] == before[k]
  }

  /** Splicing x into `before` at lo puts x at lo and changes nothing else. */
  lemma SpliceFacts(before: seq<char>, after: seq<char>, lo: nat, x: seq<char>)
    requires lo + |x| <= |before|
    requires after == before[..lo] + x + before[lo + |x|..]
    ensures after[lo..lo + |x|] == x
    ensures SameOutside(before, after, lo, lo + |x|)
  {
    assert after[lo..lo + |x|] == x;
  }

  /** A range clear of [wlo, whi) is unchanged. */
  lemma RangeUnchanged(before: seq<char>, after: seq<char>, wlo: nat, whi: nat, lo: nat, hi: nat)
    requires SameOutside(before, after, wlo, whi) && lo <= hi <= |before|
    requires hi <= wlo || whi <= lo
    ensures after[lo..hi] == before[lo..hi]
  {
  }

  /** A chunk d other than c stays in place when only chunk c's range changes. */
  lemma OtherChunkKept(before: seq<char>, after: seq<char>, ss: seq<Str>, fac: nat, c: nat, d: nat)
    requires fac > 0 && AllValid(ss) && c < NumTasks(|ss|, fac) && d < NumTasks(|ss|, fac) && d != c
    requires SameOutside(before, after, ByteStart(ss, c, fac), ByteStart(ss, c, fac) + ChunkBytes(ss, c, fac))
    requires ChunkWritten(before, ss, d, fac)
    ensures ChunkWritten(after, ss, d, fac)
  {
    if d < c {
      ChunkWritesDisjoint(ss, fac, d, c);
    } else {
      ChunkWritesDisjoint(ss, fac, c, d);
    }
    RangeUnchanged(before, after, ByteStart(ss, c, fac), ByteStart(ss, c, fac) + ChunkBytes(ss, c, fac),
      ByteStart(ss, d, fac), ByteStart(ss, d, fac) + ChunkBytes(ss, d, fac));
  }

  /** Writing chunk c's bytes into its own range puts chunk c in place and
      keeps every other chunk that was already in place. */
  lemma WriteKeepsOtherChunks(before: seq<char>, after: seq<char>, ss: seq<Str>, fac: nat, c: nat, doneChunks: set<nat>,
                              offset: nat)
    requires fac > 0 && AllValid(ss) && c < NumTasks(|ss|, fac)
    requires ChunkStart(c, fac) <= ChunkEnd(c, fac, |ss|) <= |ss|
    requires offset == ByteStart(ss, c, fac)
    requires offset + TotalLength(ss[ChunkStart(c, fac)..ChunkEnd(c, fac, |ss|)]) <= |before|
    requires after == before[..offset] + Flatten(Payloads(ss[ChunkStart(c, fac)..ChunkEnd(c, fac, |ss|)]))
      + before[offset + TotalLength(ss[ChunkStart(c, fac)..ChunkEnd(c, fac, |ss|)])..]
    requires forall d :: 0 <= d < NumTasks(|ss|, fac) && d in doneChunks ==> ChunkWritten(before, ss, d, fac)
    ensures forall d :: 0 <= d < NumTasks(|ss|, fac) && d in doneChunks + {c} ==> ChunkWritten(after, ss, d, fac)
  {
    var x := ChunkText(ss, c, fac);
    SpliceFacts(before, after, offset, x);
    assert ChunkWritten(after, ss, c, fac);
    forall d | 0 <= d < NumTasks(|ss|, fac) && d in doneChunks && d != c
      ensures ChunkWritten(after, ss, d, fac)
    {
      OtherChunkKept(before, after, ss, fac, c, d);
    }
  }

  /** The offset main hands write_to_file for chunk c (0 for chunk 0, the
      prefix sum through chunk c - 1 otherwise) is where chunk c's bytes
      begin, and the chunk fits in the file. */
  lemma TaskRange(ss: seq<Str>, fac: nat, c: nat, offset: nat)
    requires fac > 0 && c < NumTasks(|ss|, fac)
    requires c == 0 ==> offset == 0
    requires c > 0 ==> offset == TotalLength(ss[..ChunkEnd(c - 1, fac, |ss|)])
    ensures ChunkStart(c, fac) <= ChunkEnd(c, fac, |ss|) <= |ss|
    ensures offset == ByteStart(ss, c, fac)
    ensures offset + TotalLength(ss[ChunkStart(c, fac)..ChunkEnd(c, fac, |ss|)]) <= TotalLength(ss)
  {
    ChunksPartition(|ss|, fac, c);
    ByteStartAfter(ss, fac, c);
    ChunkBytesAdjacent(ss, fac, c);
    TotalLengthPrefixMonotone(ss, ChunkEnd(c, fac, |ss|), |ss|);
    assert ss[..|ss|] == ss;
  }

  /** One write_to_file task of the third round: chunk c's lines go to
      offset 0 (chunk 0) or offsets[c - 1]; chunks already in place stay so. */
  method WriteTask(fileBuf: array<char>, lines: array<Line>, offsets: array<nat>, fac: nat, c: nat,
                   ghost doneChunks: set<nat>)
    requires fac > 0
    requires AllValid(Strs(lines[..]))
    requires fileBuf.Length == TotalLength(Strs(lines[..]))
    requires offsets.Length == NumTasks(lines.Length, fac) && c < offsets.Length
    requires forall d :: 0 <= d < offsets.Length ==>
      offsets[d] == TotalLength(Strs(lines[..])[..ChunkEnd(d, fac, lines.Length)])
    requires forall d :: 0 <= d < offsets.Length && d in doneChunks ==> ChunkWritten(fileBuf[..], Strs(lines[..]), d, fac)
    modifies fileBuf
    ensures forall d :: 0 <= d < offsets.Length && d in doneChunks + {c} ==> ChunkWritten(fileBuf[..], Strs(lines[..]), d, fac)
  {
    ghost var ss := Strs(lines[..]);
    var numLines := lines.Length;
    var start, end := ChunkStart(c, fac), ChunkEnd(c, fac, numLines);
    var offset := if c == 0 then 0 else offsets[c - 1];
    TaskRange(ss, fac, c, offset);
    ghost var before := fileBuf[..];
    WriteToFile(fileBuf, lines[..], start, end, offset);
    WriteKeepsOtherChunks(before, fileBuf[..], ss, fac, c, doneChunks, offset);
  }

  /** The third pool round: one write_to_file task per chunk, in schedule order. */
  method WritePhase(fileBuf: array<char>, lines: array<Line>, offsets: array<nat>, fac: nat, order: seq<nat>)
    requires fac > 0
    requires AllValid(Strs(lines[..]))
    requires fileBuf.Length == TotalLength(Strs(lines[..]))
    requires offsets.Length == NumTasks(lines.Length, fac)
    requires forall c :: 0 <= c < offsets.Length ==>
      offsets[c] == TotalLength(Strs(lines[..])[..ChunkEnd(c, fac, lines.Length)])
    requires IsSchedule(order, offsets.Length)
    modifies fileBuf
    ensures fileBuf[..] == Flatten(Payloads(Strs(lines[..])))
  {
    ghost var ss := Strs(lines[..]);
    var n := offsets.Length;
    ghost var doneChunks: set<nat> := {};
    var t := 0;
    while t < |order|
      invariant 0 <= t <= |order|
      invariant forall c :: c in doneChunks <==> c in order[..t]
      invariant forall c :: 0 <= c < n && c in doneChunks ==> ChunkWritten(fileBuf[..], ss, c, fac)
    {
      var c := order[t];
      WriteTask(fileBuf, lines, offsets, fac, c, doneChunks);
      doneChunks := doneChunks + {c};
      assert order[..t + 1] == order[..t] + [c];
      t := t + 1;
    }
    assert order[..|order|] == order;
    AllWritten(fileBuf[..], ss, fac);
  }

  lemma LastChunkEnd(numLines: nat, fac: nat)
    requires fac > 0 && numLines > 0
    ensures NumTasks(numLines, fac) >= 1
    ensures ChunkEnd(NumTasks(numLines, fac) - 1, fac, numLines) == numLines
  {
    ChunksPartition(numLines, fac, NumTasks(numLines, fac) - 1);
  }

  lemma WholePrefix(buf: seq<char>, ss: seq<Str>, e: nat)
    requires e == |ss| && AllValid(ss) && |buf| == TotalLength(ss)
    requires PrefixWritten(buf, ss, e)
    ensures buf == Flatten(Payloads(ss))
  {
    assert ss[..e] == ss;
    assert buf[..|buf|] == buf;
  }

  /** Every chunk in place means the whole file in place. */
  lemma AllWritten(buf: seq<char>, ss: seq<Str>, fac: nat)
    requires fac > 0 && AllValid(ss) && |buf| == TotalLength(ss)
    requires AllChunksInPlace(buf, ss, fac)
    ensures buf == Flatten(Payloads(ss))
  {
    if |ss| == 0 {
      assert ss == [];
      assert Payloads(ss) == [];
    } else {
      LastChunkEnd(|ss|, fac);
      var n := NumTasks(|ss|, fac);
      AllChunksWritten(buf, ss, fac, n - 1);
      WholePrefix(buf, ss, ChunkEnd(n - 1, fac, |ss|));
    }
  }

  /** Every chunk's bytes are in place. */
  ghost predicate AllChunksInPlace(buf: seq<char>, ss: seq<Str>, fac: nat)
    requires fac > 0 && AllValid(ss)
  {
    forall c :: 0 <= c < NumTasks(|ss|, fac) ==> ChunkWritten(buf, ss, c, fac)
  }

  /*************************************************************************/
  /* The threaded program end to end                                       */
  /*************************************************************************/

  /** The second round and the prefix-sum loop of main: offsets[c] ends up
      as the byte length of every line up to the end of chunk c. */
  method ChunkOffsets(lines: array<Line>, fac: nat, order: seq<nat>) returns (offsets: array<nat>)
    requires fac > 0
    requires IsSchedule(order, NumTasks(lines.Length, fac))
    ensures fresh(offsets) && offsets.Length == NumTasks(lines.Length, fac)
    ensures forall c :: 0 <= c < offsets.Length ==>
      offsets[c] == TotalLength(Strs(lines[..])[..ChunkEnd(c, fac, lines.Length)])
    ensures lines.Length > 0 ==> offsets.Length > 0 && offsets[offsets.Length - 1] == TotalLength(Strs(lines[..]))
  {
    ghost var ss := Strs(lines[..]);
    offsets := new nat[NumTasks(lines.Length, fac)](_ => 0);
    OffsetPhase(lines, offsets, fac, order);
    ghost var chunkSums := offsets[..];
    PrefixSums(offsets);
    forall c | 0 <= c < offsets.Length
      ensures offsets[c] == TotalLength(ss[..ChunkEnd(c, fac, lines.Length)])
    {
      PrefixOfChunkBytes(ss, fac, chunkSums, c);
    }
    if lines.Length > 0 {
      LastChunkEnd(lines.Length, fac);
      assert ss[..lines.Length] == ss;
    }
  }

  /** The generated lines, written back to back, are the file text. */
  lemma GeneratedText(ls: seq<Line>, rands: seq<seq<nat>>)
    requires RandsShape(rands, |ls|)
    requires forall k :: 0 <= k < |ls| ==> Generated(ls[k], k, rands)
    ensures AllValid(Strs(ls))
    ensures Flatten(Payloads(Strs(ls))) == FileText(rands)
  {
    LinesText(Strs(ls), rands);
  }

  /** The first round and the qsort of main: the lines in line order, each
      the text of its row of random values. */
  method GenerateSorted(numLines: nat, fac: nat, rands: seq<seq<nat>>, order: seq<nat>)
    returns (generated: array<Line>)
    requires fac > 0
    requires RandsShape(rands, numLines)
    requires IsSchedule(order, NumTasks(numLines, fac))
    ensures fresh(generated) && generated.Length == numLines
    ensures forall k :: 0 <= k < numLines ==> generated[k].lineno == k + 1
    ensures AllValid(Strs(generated[..]))
    ensures Flatten(Payloads(Strs(generated[..]))) == FileText(rands)
  {
    generated := new Line[numLines](_ => Line(0, EmptyStr));
    GeneratePhase(generated, fac, rands, order);

    // qsort(generated, num_lines, sizeof(Line*), cmp_lines) has exactly one
    // possible outcome, the array as it is.
    assert SortedByCmp(generated[..]);
    ghost var sorted :| multiset(sorted) == multiset(generated[..]) && SortedByCmp(sorted);
    SortLeavesLinesInPlace(generated[..], sorted);

    GeneratedText(generated[..], rands);
  }

  /** file_size is the last offset; the third round fills a buffer of that
      size with every line in order. */
  method WriteFile(lines: array<Line>, offsets: array<nat>, fac: nat, order: seq<nat>)
    returns (fileBuf: array<char>)
    requires fac > 0 && lines.Length > 0
    requires AllValid(Strs(lines[..]))
    requires offsets.Length == NumTasks(lines.Length, fac)
    requires forall c :: 0 <= c < offsets.Length ==>
      offsets[c] == TotalLength(Strs(lines[..])[..ChunkEnd(c, fac, lines.Length)])
    requires offsets[offsets.Length - 1] == TotalLength(Strs(lines[..]))
    requires IsSchedule(order, offsets.Length)
    ensures fileBuf[..] == Flatten(Payloads(Strs(lines[..])))
  {
    var fileSize := offsets[offsets.Length - 1];
    fileBuf := new char[fileSize](_ => '\0');
    WritePhase(fileBuf, lines, offsets, fac, order);
  }

  /** main without the file plumbing and the timing: fewer than one line is
      refused; otherwise the three pool rounds, in the given schedules, leave
      a buffer of file_size = offsets[num_tasks - 1] bytes that holds exactly
      what the serial writer produces. */
  method ThreadedWrite(numLines: int, rands: seq<seq<nat>>,
                       genOrder: seq<nat>, offsetOrder: seq<nat>, writeOrder: seq<nat>)
    returns (ok: bool, fileBuf: array<char>)
    requires numLines >= 1 ==> RandsShape(rands, numLines)
    requires numLines >= 1 ==>
      && IsSchedule(genOrder, NumTasks(numLines, 8 * NUM_THREADS))
      && IsSchedule(offsetOrder, NumTasks(numLines, 8 * NUM_THREADS))
      && IsSchedule(writeOrder, NumTasks(numLines, 8 * NUM_THREADS))
    ensures ok <==> numLines >= 1
    ensures ok ==> fileBuf[..] == FileText(rands)
  {
    if numLines < 1 {
      ok := false;
      fileBuf := new char[0];
      return;
    }
    var fac := 8 * NUM_THREADS;

    var generated := GenerateSorted(numLines, fac, rands, genOrder);
    var offsets := ChunkOffsets(generated, fac, offsetOrder);
    fileBuf := WriteFile(generated, offsets, fac, writeOrder);
    ok := true;
  }
}
