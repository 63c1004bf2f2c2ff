/**
 * The CSV line format shared by the serial and the threaded file writers:
 * `%d` formatting, one generated line (NCOLS fields "value," whose last comma
 * becomes a newline), the length-carrying String record, and the byte copy
 * both writers build their output with. The random values are inputs.
 */
module Csv {

  /** Number of columns per line. */
  const NCOLS: nat := 100
  /** Size of the per-field formatting buffer num_str. */
  const MAX_BUFLEN: nat := 10

  /*************************************************************************/
  /* Decimal formatting                                                    */
  /*************************************************************************/

  predicate IsDigit(c: char)
  {
    '0' <= c <= '9'
  }

  function DigitChar(d: nat): (c: char)
    requires d < 10
    ensures IsDigit(c)
  {
    ('0' as int + d) as char
  }

  function DigitValue(c: char): (d: nat)
    requires IsDigit(c)
    ensures d < 10 && DigitChar(d) == c
  {
    c as int - '0' as int
  }

  /** `%d` of a non-negative int: its decimal digits, most significant first. */
  function Decimal(n: nat): (s: seq<char>)
    ensures 1 <= |s|
    ensures forall k :: 0 <= k < |s| ==> IsDigit(s[k])
    decreases n
  {
    if n < 10 then [DigitChar(n)] else Decimal(n / 10) + [DigitChar(n % 10)]
  }

  /** Reading a string of digits back as a number: the inverse of Decimal. */
  function ParseDecimal(s: seq<char>): nat
    requires forall k :: 0 <= k < |s| ==> IsDigit(s[k])
  {
    if s == [] then 0 else ParseDecimal(s[..|s| - 1]) * 10 + DigitValue(s[|s| - 1])
  }

  lemma {:induction false} DecimalRoundTrip(n: nat)
    ensures ParseDecimal(Decimal(n)) == n
    decreases n
  {
    var s := Decimal(n);
    if n >= 10 {
      DecimalRoundTrip(n / 10);
      assert s[..|s| - 1] == Decimal(n / 10);
      assert DigitValue(s[|s| - 1]) == n % 10;
    } else {
      assert s[..|s| - 1] == [];
    }
  }

  /** Values below NCOLS print in one or two digits. */
  lemma DecimalLength(n: nat)
    requires n < NCOLS
    ensures |Decimal(n)| == if n < 10 then 1 else 2
  {
    if n >= 10 {
      assert n / 10 < 10;
    }
  }

  /*************************************************************************/
  /* One generated line                                                    */
  /*************************************************************************/

  /** What sprintf(num_str, "%d,", rand() % NCOLS) leaves in num_str. */
  function Field(rand: nat): (f: seq<char>)
    ensures 2 <= |f| <= 3 && |f| < MAX_BUFLEN
    ensures f == Decimal(rand % NCOLS) + [',']
  {
    DecimalLength(rand % NCOLS);
    Decimal(rand % NCOLS) + [',']
  }

  /** The buffer `joined` after the column loop: the fields one after another. */
  function Fields(rands: seq<nat>): (j: seq<char>)
    ensures 2 * |rands| <= |j| <= 3 * |rands|
    ensures forall k :: 0 <= k < |j| ==> IsDigit(j[k]) || j[k] == ','
    ensures rands != [] ==> j[|j| - 1] == ','
  {
    if rands == [] then [] else Fields(rands[..|rands| - 1]) + Field(rands[|rands| - 1])
  }

  /** A generated line: the fields with the last comma replaced by '\n'. */
  function LineText(rands: seq<nat>): (line: seq<char>)
    requires |rands| >= 1
    ensures |line| == |Fields(rands)| && line[|line| - 1] == '\n'
    ensures forall k :: 0 <= k < |line| - 1 ==> line[k] == Fields(rands)[k]
  {
    var j := Fields(rands);
    j[|j| - 1 := '\n']
  }

  /** The column values a line shows: each random value reduced modulo NCOLS. */
  function Columns(rands: seq<nat>): (vs: seq<nat>)
    ensures |vs| == |rands|
    ensures forall i :: 0 <= i < |vs| ==> vs[i] < NCOLS && vs[i] == rands[i] % NCOLS
  {
    seq(|rands|, i requires 0 <= i < |rands| => rands[i] % NCOLS)
  }

  /** Reference definition of a CSV row: the decimal values joined by ','. */
  function JoinComma(vs: seq<nat>): seq<char>
    requires |vs| >= 1
  {
    if |vs| == 1 then Decimal(vs[0]) else JoinComma(vs[..|vs| - 1]) + [','] + Decimal(vs[|vs| - 1])
  }

  lemma {:induction false} FieldsAreJoined(rands: seq<nat>)
    requires |rands| >= 1
    ensures Fields(rands) == JoinComma(Columns(rands)) + [',']
  {
    var n := |rands|;
    var init := rands[..n - 1];
    if n == 1 {
      assert init == [];
      assert Columns(rands) == [rands[0] % NCOLS];
    } else {
      FieldsAreJoined(init);
      assert Columns(rands)[..n - 1] == Columns(init);
    }
  }

  /** A generated line is exactly the column values joined by ',' and ended by '\n'. */
  lemma LineIsJoined(rands: seq<nat>)
    requires |rands| >= 1
    ensures LineText(rands) == JoinComma(Columns(rands)) + ['\n']
  {
    FieldsAreJoined(rands);
    var j := JoinComma(Columns(rands));
    var f := j + [','];
    assert |f[|j| := '\n']| == |j + ['\n']|;
    forall k | 0 <= k < |f|
      ensures f[|j| := '\n'][k] == (j + ['\n'])[k]
    {
    }
  }

  /** Occurrences of `c` in `s`. */
  function Count(s: seq<char>, c: char): nat
  {
    if s == [] then 0 else Count(s[..|s| - 1], c) + (if s[|s| - 1] == c then 1 else 0)
  }

  lemma {:induction false} CountAppend(a: seq<char>, b: seq<char>, c: char)
    ensures Count(a + b, c) == Count(a, c) + Count(b, c)
    decreases |b|
  {
    if b == [] {
      assert a + b == a;
    } else {
      CountAppend(a, b[..|b| - 1], c);
      assert (a + b)[..|a + b| - 1] == a + b[..|b| - 1];
    }
  }

  lemma {:induction false} CountNone(s: seq<char>, c: char)
    requires forall k :: 0 <= k < |s| ==> s[k] != c
    ensures Count(s, c) == 0
  {
    if s != [] {
      CountNone(s[..|s| - 1], c);
    }
  }

  /** A row of n values holds n - 1 commas and no newline. */
  lemma {:induction false} JoinCommaCounts(vs: seq<nat>)
    requires |vs| >= 1
    ensures Count(JoinComma(vs), ',') == |vs| - 1
    ensures Count(JoinComma(vs), '\n') == 0
  {
    var d := Decimal(vs[|vs| - 1]);
    CountNone(d, ',');
    CountNone(d, '\n');
    if |vs| > 1 {
      var init := JoinComma(vs[..|vs| - 1]);
      JoinCommaCounts(vs[..|vs| - 1]);
      CountAppend(init + [','], d, ',');
      CountAppend(init, [','], ',');
      CountAppend(init + [','], d, '\n');
      CountAppend(init, [','], '\n');
      assert Count([','], ',') == 1 by { assert [','][..0] == []; }
      assert Count([','], '\n') == 0 by { assert [','][..0] == []; }
    }
  }

  /** The shape of a generated line: NCOLS values below NCOLS, NCOLS - 1 commas,
      a single newline and it is the last character, and a length between
      2 * NCOLS and 3 * NCOLS (each field is one or two digits plus a separator). */
  lemma LineFormat(rands: seq<nat>)
    requires |rands| == NCOLS
    ensures var line := LineText(rands);
      && 2 * NCOLS <= |line| <= 3 * NCOLS
      && line[|line| - 1] == '\n'
      && Count(line, ',') == NCOLS - 1
      && Count(line, '\n') == 1
      && forall k :: 0 <= k < |line| ==> IsDigit(line[k]) || line[k] == ',' || line[k] == '\n'
  {
    LineIsJoined(rands);
    var j := JoinComma(Columns(rands));
    JoinCommaCounts(Columns(rands));
    CountAppend(j, ['\n'], ',');
    CountAppend(j, ['\n'], '\n');
    assert Count(['\n'], ',') == 0 by { assert ['\n'][..0] == []; }
    assert Count(['\n'], '\n') == 1 by { assert ['\n'][..0] == []; }
  }

  /*************************************************************************/
  /* The String record                                                     */
  /*************************************************************************/

  /** A String: `length` payload bytes followed by a terminating NUL. */
  datatype Str = Str(data: seq<char>, length: nat)
  {
    predicate Valid()
    {
      |data| == length + 1 && data[length] == '\0'
    }
  }

  /** A zeroed String record (calloc): NULL data, length 0. */
  const EmptyStr: Str := Str([], 0)

  /** The bytes a String stands for. */
  function Payload(s: Str): (p: seq<char>)
    requires s.Valid()
    ensures |p| == s.length
  {
    s.data[..s.length]
  }

  /** strncpy(dst, src, n): src's bytes up to its first NUL, then NUL padding to n bytes. */
  function StrNCopy(src: seq<char>, n: nat): (r: seq<char>)
    requires n <= |src|
    ensures |r| == n
    ensures forall k :: 0 <= k < n ==> r[k] == src[k] || r[k] == '\0'
    ensures (forall k :: 0 <= k < n ==> src[k] != '\0') ==> r == src[..n]
  {
    if n == 0 then []
    else if src[0] == '\0' then seq(n, _ => '\0')
    else [src[0]] + StrNCopy(src[1..], n - 1)
  }

  /** string_create: copy `length` bytes of `str` and terminate them. */
  function StringCreate(str: seq<char>, length: nat): (r: Str)
    requires length <= |str|
    ensures r.Valid() && r.length == length
    ensures (forall k :: 0 <= k < length ==> str[k] != '\0') ==> Payload(r) == str[..length]
  {
    var copied := StrNCopy(str, length);
    assert (copied + ['\0'])[..length] == copied;
    Str(copied + ['\0'], length)
  }

  /** generate_line (and the body of the line loop in generate_lines), with
      the NCOLS values rand() returned as input. */
  method GenerateLine(rands: seq<nat>) returns (res: Str)
    requires |rands| == NCOLS
    ensures res.Valid()
    ensures Payload(res) == LineText(rands)
  {
    var joined: seq<char> := [];
    var buflen: nat := 0;
    var i := 0;
    while i < NCOLS
      invariant 0 <= i <= NCOLS
      invariant joined == Fields(rands[..i])
      invariant buflen == |joined|
    {
      var numStr := Field(rands[i]);
      buflen := buflen + |numStr|;
      joined := joined + numStr;
      assert rands[..i + 1][..i] == rands[..i];
      i := i + 1;
    }
    assert rands[..NCOLS] == rands;
    joined := joined[buflen - 1 := '\n'];
    assert joined == LineText(rands);
    LineFormat(rands);
    joined := joined + ['\0'];
    res := StringCreate(joined, buflen);
    assert joined[..buflen] == LineText(rands);
  }

  /*************************************************************************/
  /* Concatenation and copying                                             */
  /*************************************************************************/

  /** Byte strings written back to back. */
  function Flatten(ts: seq<seq<char>>): seq<char>
  {
    if ts == [] then [] else Flatten(ts[..|ts| - 1]) + ts[|ts| - 1]
  }

  lemma {:induction false} FlattenAppend(a: seq<seq<char>>, b: seq<seq<char>>)
    ensures Flatten(a + b) == Flatten(a) + Flatten(b)
    decreases |b|
  {
    if b == [] {
      assert a + b == a;
    } else {
      FlattenAppend(a, b[..|b| - 1]);
      assert (a + b)[..|a + b| - 1] == a + b[..|b| - 1];
    }
  }

  /** Every String of a list well formed. */
  predicate AllValid(ls: seq<Str>)
  {
    forall i :: 0 <= i < |ls| ==> ls[i].Valid()
  }

  /** The sum of the recorded lengths (what file_size and the chunk offsets add up). */
  function TotalLength(ls: seq<Str>): nat
  {
    if ls == [] then 0 else TotalLength(ls[..|ls| - 1]) + ls[|ls| - 1].length
  }

  function Payloads(ls: seq<Str>): (ps: seq<seq<char>>)
    requires AllValid(ls)
    ensures |ps| == |ls|
    ensures forall i :: 0 <= i < |ls| ==> ps[i] == Payload(ls[i])
  {
    seq(|ls|, i requires 0 <= i < |ls| && ls[i].Valid() => Payload(ls[i]))
  }

  lemma PayloadsAppend(a: seq<Str>, b: seq<Str>)
    requires AllValid(a) && AllValid(b)
    ensures AllValid(a + b)
    ensures Payloads(a + b) == Payloads(a) + Payloads(b)
  {
    assert forall i :: 0 <= i < |a + b| ==> (a + b)[i] == if i < |a| then a[i] else b[i - |a|];
  }

  lemma {:induction false} TotalLengthAppend(a: seq<Str>, b: seq<Str>)
    ensures TotalLength(a + b) == TotalLength(a) + TotalLength(b)
    decreases |b|
  {
    if b == [] {
      assert a + b == a;
    } else {
      TotalLengthAppend(a, b[..|b| - 1]);
      assert (a + b)[..|a + b| - 1] == a + b[..|b| - 1];
    }
  }

  /** The lines written back to back take exactly the summed length. */
  lemma {:induction false} FlattenLength(ls: seq<Str>)
    requires AllValid(ls)
    ensures |Flatten(Payloads(ls))| == TotalLength(ls)
  {
    if ls != [] {
      var init := ls[..|ls| - 1];
      FlattenLength(init);
      assert Payloads(ls)[..|ls| - 1] == Payloads(init);
    }
  }

  /** The total length of lines lo .. hi - 1 ends with the last line's length. */
  lemma TotalLengthSnoc(ss: seq<Str>, lo: nat, hi: nat)
    requires lo < hi <= |ss|
    ensures TotalLength(ss[lo..hi]) == TotalLength(ss[lo..hi - 1]) + ss[hi - 1].length
  {
    assert ss[lo..hi][..hi - 1 - lo] == ss[lo..hi - 1];
  }

  /** The total length of lines lo .. hi - 1 is the first line's length plus the rest. */
  lemma TotalLengthCons(ss: seq<Str>, lo: nat, hi: nat)
    requires lo < hi <= |ss|
    ensures TotalLength(ss[lo..hi]) == ss[lo].length + TotalLength(ss[lo + 1..hi])
  {
    var s := ss[lo];
    assert ss[lo..hi] == [s] + ss[lo + 1..hi];
    TotalLengthAppend([s], ss[lo + 1..hi]);
    assert TotalLength([s]) == s.length by { assert [s][..0] == []; }
  }

  /** The text of lines lo .. hi - 1 ends with the last line's payload. */
  lemma FlattenSnoc(ss: seq<Str>, lo: nat, hi: nat)
    requires lo < hi <= |ss| && AllValid(ss)
    ensures Flatten(Payloads(ss[lo..hi])) == Flatten(Payloads(ss[lo..hi - 1])) + Payload(ss[hi - 1])
  {
    assert Payloads(ss[lo..hi])[..hi - 1 - lo] == Payloads(ss[lo..hi - 1]);
  }

  /** The text of lines 0 .. hi - 1 is that of lines 0 .. lo - 1 followed by
      that of lines lo .. hi - 1. */
  lemma FlattenSplit(ss: seq<Str>, lo: nat, hi: nat)
    requires lo <= hi <= |ss| && AllValid(ss)
    ensures Flatten(Payloads(ss[..hi])) == Flatten(Payloads(ss[..lo])) + Flatten(Payloads(ss[lo..hi]))
  {
    assert ss[..hi] == ss[..lo] + ss[lo..hi];
    PayloadsAppend(ss[..lo], ss[lo..hi]);
    FlattenAppend(Payloads(ss[..lo]), Payloads(ss[lo..hi]));
  }

  /** One more line at the end of a run of lines start .. i - 1. */
  lemma SegmentStep(ss: seq<Str>, start: nat, i: nat, end: nat)
    requires start <= i < end <= |ss| && AllValid(ss)
    ensures TotalLength(ss[start..i + 1]) == TotalLength(ss[start..i]) + ss[i].length
    ensures TotalLength(ss[i..end]) == ss[i].length + TotalLength(ss[i + 1..end])
    ensures Flatten(Payloads(ss[start..i + 1])) == Flatten(Payloads(ss[start..i])) + Payload(ss[i])
    ensures |Flatten(Payloads(ss[start..i]))| == TotalLength(ss[start..i])
  {
    TotalLengthSnoc(ss, start, i + 1);
    TotalLengthCons(ss, i, end);
    FlattenSnoc(ss, start, i + 1);
    FlattenLength(ss[start..i]);
  }

  /** Copying `s` right after `p + f` inside `p + f + rest` extends `f` by `s`. */
  lemma SpliceAppend(p: seq<char>, f: seq<char>, rest: seq<char>, s: seq<char>)
    requires |s| <= |rest|
    ensures var before := p + f + rest;
      var at := |p| + |f|;
      before[..at] + s + before[at + |s|..] == p + (f + s) + rest[|s|..]
  {
    var before := p + f + rest;
    var at := |p| + |f|;
    assert before[..at] == p + f;
    assert before[at + |s|..] == rest[|s|..];
  }

  /** The buffer once lines start .. i - 1 are copied from `offset` on. */
  ghost function Spliced(orig: seq<char>, offset: nat, ss: seq<Str>, start: nat, i: nat): seq<char>
    requires start <= i <= |ss| && AllValid(ss)
    requires offset + TotalLength(ss[start..i]) <= |orig|
  {
    orig[..offset] + Flatten(Payloads(ss[start..i])) + orig[offset + TotalLength(ss[start..i])..]
  }

  /** Before any line is copied the buffer is as it was. */
  lemma SplicedNone(orig: seq<char>, offset: nat, ss: seq<Str>, start: nat)
    requires start <= |ss| && AllValid(ss) && offset <= |orig|
    ensures TotalLength(ss[start..start]) == 0
    ensures Spliced(orig, offset, ss, start, start) == orig
  {
    assert ss[start..start] == [];
    assert Payloads(ss[start..start]) == [];
    assert orig[..offset] + orig[offset..] == orig;
  }

  /** Once every line is copied from 0 on into a buffer of their total
      length, the buffer holds exactly their text. */
  lemma SplicedAll(orig: seq<char>, ss: seq<Str>)
    requires AllValid(ss) && TotalLength(ss) == |orig|
    ensures TotalLength(ss[0..|ss|]) == |orig|
    ensures Spliced(orig, 0, ss, 0, |ss|) == Flatten(Payloads(ss))
  {
    assert ss[0..|ss|] == ss;
    assert orig[..0] == [];
    assert orig[|orig|..] == [];
  }

  /** The state of a copy loop over lines start .. end - 1: lines start ..
      i - 1 are copied from offset on, rtb bytes so far, and the rest fits. */
  ghost predicate Copying(buf: seq<char>, orig: seq<char>, offset: nat, ss: seq<Str>,
                          start: nat, i: nat, end: nat, rtb: nat)
    requires AllValid(ss)
  {
    && start <= i <= end <= |ss|
    && rtb == TotalLength(ss[start..i])
    && offset + rtb + TotalLength(ss[i..end]) <= |orig|
    && buf == Spliced(orig, offset, ss, start, i)
  }

  /** Line i fits at offset + rtb. */
  lemma CopyRoom(buf: seq<char>, orig: seq<char>, offset: nat, ss: seq<Str>,
                 start: nat, i: nat, end: nat, rtb: nat)
    requires AllValid(ss) && Copying(buf, orig, offset, ss, start, i, end, rtb) && i < end
    ensures offset + rtb + |Payload(ss[i])| <= |buf| == |orig|
  {
    TotalLengthCons(ss, i, end);
    FlattenLength(ss[start..i]);
  }

  /** Copying line i right after lines start .. i - 1 moves the loop one line on. */
  lemma CopyStep(before: seq<char>, after: seq<char>, orig: seq<char>, offset: nat, ss: seq<Str>,
                 start: nat, i: nat, end: nat, rtb: nat)
    requires AllValid(ss) && Copying(before, orig, offset, ss, start, i, end, rtb) && i < end
    requires offset + rtb + |Payload(ss[i])| <= |before|
    requires after == before[..offset + rtb] + Payload(ss[i]) + before[offset + rtb + |Payload(ss[i])|..]
    ensures Copying(after, orig, offset, ss, start, i + 1, end, rtb + ss[i].length)
  {
    SegmentStep(ss, start, i, end);
    SpliceStep(orig, offset, rtb, Flatten(Payloads(ss[start..i])), Payload(ss[i]), before);
  }

  /** Copying s right after the copied prefix f extends it by s. */
  lemma SpliceStep(orig: seq<char>, offset: nat, rtb: nat, f: seq<char>, s: seq<char>, before: seq<char>)
    requires |f| == rtb && offset + rtb + |s| <= |orig|
    requires before == orig[..offset] + f + orig[offset + rtb..]
    ensures |before| == |orig|
    ensures before[..offset + rtb] + s + before[offset + rtb + |s|..] == orig[..offset] + (f + s) + orig[offset + rtb + |s|..]
  {
    var rest := orig[offset + rtb..];
    SpliceAppend(orig[..offset], f, rest, s);
    assert rest[|s|..] == orig[offset + rtb + |s|..];
  }

  /** The file both writers must produce: every generated line, in line order. */
  function FileText(rands: seq<seq<nat>>): seq<char>
    requires forall i :: 0 <= i < |rands| ==> |rands[i]| == NCOLS
  {
    Flatten(seq(|rands|, i requires 0 <= i < |rands| => LineText(rands[i])))
  }

  /** Lines whose texts are those of the rows of random values, joined, are the file. */
  lemma LinesText(ls: seq<Str>, rands: seq<seq<nat>>)
    requires |ls| == |rands| && AllValid(ls)
    requires forall i :: 0 <= i < |rands| ==> |rands[i]| == NCOLS
    requires forall i :: 0 <= i < |ls| ==> Payload(ls[i]) == LineText(rands[i])
    ensures Flatten(Payloads(ls)) == FileText(rands)
  {
    assert Payloads(ls) == seq(|rands|, i requires 0 <= i < |rands| => LineText(rands[i]));
  }

  /** One pass of a copy loop: line i goes to offset + rtb, just past the
      lines copied before it. */
  method CopyLine(buf: array<char>, ghost orig: seq<char>, offset: nat, ghost ss: seq<Str>, line: Str,
                  ghost start: nat, ghost i: nat, ghost end: nat, rtb: nat)
    requires AllValid(ss) && Copying(buf[..], orig, offset, ss, start, i, end, rtb)
    requires i < end && line == ss[i]
    modifies buf
    ensures Copying(buf[..], orig, offset, ss, start, i + 1, end, rtb + line.length)
  {
    ghost var before := buf[..];
    CopyRoom(before, orig, offset, ss, start, i, end, rtb);
    Memcpy(buf, offset + rtb, Payload(line));
    CopyStep(before, buf[..], orig, offset, ss, start, i, end, rtb);
  }

  /** memcpy(dst + at, src, |src|): exactly dst[at .. at + |src|) changes, to src. */
  method Memcpy(dst: array<char>, at: nat, src: seq<char>)
    requires at + |src| <= dst.Length
    modifies dst
    ensures dst[..] == old(dst[..])[..at] + src + old(dst[..])[at + |src|..]
  {
    forall k | 0 <= k < |src| {
      dst[at + k] := src[k];
    }
  }
}
