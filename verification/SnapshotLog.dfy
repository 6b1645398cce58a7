/** The append-only snapshot log (health_snapshot.rs): what the reader makes of any prefix
    of it, of malformed lines, and of an append after a torn write.

    JSON parsing (with redaction and the schema check) and Unicode trimming are opaque
    functions on the bytes of one line. A file is its bytes, or None when it is absent. */
module SnapshotLog {
  import opened Prelude
  import opened Utf8

  const NEWLINE: u8 := 10
  const RETURN: u8 := 13
  const MAX_CORRUPT_LINES: nat := 3

  datatype Codec<S> = Codec(parse: Bytes -> Option<S>, blank: Bytes -> bool)

  datatype HealthSnapshotLog<S> = HealthSnapshotLog(
    snapshots: seq<S>, degraded: bool, truncatedTail: bool, corruptLines: nat)

  datatype LogError = Io | CorruptLog(corruptLines: nat, threshold: nat)

  // ----- lines -----

  /** Where the first newline is, or the length. */
  function FirstNewline(s: Bytes): (k: nat)
    ensures k <= |s| && NEWLINE !in s[..k] && (k < |s| ==> s[k] == NEWLINE)
  {
    if s == [] || s[0] == NEWLINE then 0 else 1 + FirstNewline(s[1..])
  }

  function StripReturn(line: Bytes): Bytes {
    if line != [] && line[|line| - 1] == RETURN then line[..|line| - 1] else line
  }

  /** `str::lines`: a terminated line loses its newline and then one carriage return; a
      last line without newline stays as it is. */
  function Lines(s: Bytes): seq<Bytes>
    decreases |s|
  {
    if s == [] then []
    else
      var k := FirstNewline(s);
      if k == |s| then [s] else [StripReturn(s[..k])] + Lines(s[k + 1..])
  }

  /** The part before the last newline, or nothing without one. */
  function BeforeLastNewline(s: Bytes): Bytes {
    if s == [] then []
    else if s[|s| - 1] == NEWLINE then s[..|s| - 1]
    else BeforeLastNewline(s[..|s| - 1])
  }

  predicate Torn(s: Bytes) { s != [] && s[|s| - 1] != NEWLINE }

  /** Without the unterminated tail, and then without the newline before it. */
  function Complete(s: Bytes): Bytes { if Torn(s) then BeforeLastNewline(s) else s }

  // ----- what a list of lines means -----

  /** The parsed lines, in order. */
  function Good<S>(codec: Codec<S>, lines: seq<Bytes>): seq<S> {
    if lines == [] then []
    else
      var before, line := Good(codec, lines[..|lines| - 1]), lines[|lines| - 1];
      if codec.blank(line) then before
      else match codec.parse(line) case Some(s) => before + [s] case None => before
  }

  /** How many lines are neither blank nor parsed. */
  function Bad<S>(codec: Codec<S>, lines: seq<Bytes>): nat {
    if lines == [] then 0
    else Bad(codec, lines[..|lines| - 1]) + if Malformed(codec, lines[|lines| - 1]) then 1 else 0
  }

  predicate Malformed<S>(codec: Codec<S>, line: Bytes) { !codec.blank(line) && codec.parse(line).None? }

  /** What reading these complete lines yields: everything that parses unless more than the
      tolerated number does not. */
  function Outcome<S>(codec: Codec<S>, lines: seq<Bytes>, torn: bool): Result<HealthSnapshotLog<S>, LogError> {
    var bad := Bad(codec, lines);
    if bad > MAX_CORRUPT_LINES then Err(CorruptLog(MAX_CORRUPT_LINES + 1, MAX_CORRUPT_LINES))
    else Ok(HealthSnapshotLog(Good(codec, lines), torn || bad > 0, torn, bad))
  }

  function Read<S>(codec: Codec<S>, s: Bytes): Result<HealthSnapshotLog<S>, LogError> {
    if !Valid(s) then Err(Io)
    else Outcome(codec, Lines(Complete(s)), Torn(s))
  }

  lemma {:induction false} BadGrows<S>(codec: Codec<S>, lines: seq<Bytes>, i: nat)
    requires i <= |lines|
    ensures Bad(codec, lines[..i]) <= Bad(codec, lines)
  {
    if i < |lines| {
      BadGrows(codec, lines[..|lines| - 1], i);
      assert lines[..|lines| - 1][..i] == lines[..i];
    } else {
      assert lines[..i] == lines;
    }
  }

  /** `read_health_snapshot_log`, on the bytes of the file. */
  method ReadLog<S>(codec: Codec<S>, file: Option<Bytes>) returns (r: Result<HealthSnapshotLog<S>, LogError>)
    ensures file.None? ==> r == Ok(HealthSnapshotLog([], false, false, 0))
    ensures file.Some? ==> r == Read(codec, file.value)
  {
    if file.None? {
      return Ok(HealthSnapshotLog([], false, false, 0));
    }
    var contents := file.value;
    if !Valid(contents) {
      return Err(Io);
    }
    var truncatedTail := contents != [] && contents[|contents| - 1] != NEWLINE;
    var complete := if truncatedTail then BeforeLastNewline(contents) else contents;
    r := ReadLines(codec, Lines(complete), truncatedTail);
  }

  method ReadLines<S>(codec: Codec<S>, lines: seq<Bytes>, truncatedTail: bool) returns (r: Result<HealthSnapshotLog<S>, LogError>)
    ensures r == Outcome(codec, lines, truncatedTail)
  {
    var snapshots, corruptLines := [], 0;
    for i := 0 to |lines|
      invariant snapshots == Good(codec, lines[..i]) && corruptLines == Bad(codec, lines[..i]) <= MAX_CORRUPT_LINES
    {
      assert lines[..i + 1][..i] == lines[..i];
      if !codec.blank(lines[i]) {
        match codec.parse(lines[i]) {
          case Some(snapshot) =>
            snapshots := snapshots + [snapshot];
          case None =>
            corruptLines := corruptLines + 1;
            if corruptLines > MAX_CORRUPT_LINES {
              BadGrows(codec, lines, i + 1);
              return Err(CorruptLog(corruptLines, MAX_CORRUPT_LINES));
            }
        }
      }
    }
    assert lines[..|lines|] == lines;
    r := Ok(HealthSnapshotLog(snapshots, truncatedTail || corruptLines > 0, truncatedTail, corruptLines));
  }

  // ----- a log as it is written -----

  /** The file after appending each line with its newline. */
  function Written(lines: seq<Bytes>): Bytes {
    if lines == [] then [] else Written(lines[..|lines| - 1]) + lines[|lines| - 1] + [NEWLINE]
  }

  /** What the writer appends: text that is not empty and has no newline or final
      carriage return of its own, as a JSON object on one line does. */
  predicate Line(line: Bytes) {
    line != [] && Valid(line) && NEWLINE !in line && line[|line| - 1] != RETURN
  }

  predicate AllLines(lines: seq<Bytes>) { forall i :: 0 <= i < |lines| ==> Line(lines[i]) }

  lemma {:induction false} WrittenValid(lines: seq<Bytes>)
    requires AllLines(lines)
    ensures Valid(Written(lines))
  {
    if lines != [] {
      var init, last := lines[..|lines| - 1], lines[|lines| - 1];
      WrittenValid(init);
      ValidConcat(Written(init), last);
      ValidConcat(Written(init) + last, [NEWLINE]);
    }
  }

  /** Splitting a first line off. */
  lemma {:induction false} LinesStep(line: Bytes, rest: Bytes)
    requires NEWLINE !in line
    ensures Lines(line + [NEWLINE] + rest) == [StripReturn(line)] + Lines(rest)
  {
    var s := line + [NEWLINE] + rest;
    FirstNewlineAt(s, |line|);
    assert s[..|line|] == line && s[|line| + 1..] == rest;
  }

  lemma {:induction false} FirstNewlineAt(s: Bytes, k: nat)
    requires k < |s| && s[k] == NEWLINE && forall i :: 0 <= i < k ==> s[i] != NEWLINE
    ensures FirstNewline(s) == k
  {
    var f := FirstNewline(s);
    forall i | 0 <= i < f ensures s[i] != NEWLINE {
      assert s[i] == s[..f][i];
    }
  }

  lemma {:induction false} WrittenFirst(lines: seq<Bytes>)
    requires lines != []
    ensures Written(lines) == lines[0] + [NEWLINE] + Written(lines[1..])
  {
    if |lines| == 1 {
      assert lines[..0] == [] && lines[1..] == [];
      assert Written(lines) == [] + lines[0] + [NEWLINE];
    } else {
      var init, last := lines[..|lines| - 1], lines[|lines| - 1];
      WrittenFirst(init);
      assert init[1..] == lines[1..][..|lines| - 2];
      var middle := Written(init[1..]);
      assert Written(lines[1..]) == middle + last + [NEWLINE];
      assert (lines[0] + [NEWLINE] + middle) + last + [NEWLINE] == lines[0] + [NEWLINE] + (middle + last + [NEWLINE]);
    }
  }

  /** Reading back the lines of a written log followed by a last unterminated piece. */
  lemma {:induction false} LinesOfWritten(lines: seq<Bytes>, tail: Bytes)
    requires AllLines(lines) && NEWLINE !in tail
    ensures Lines(Written(lines) + tail) == lines + if tail == [] then [] else [tail]
  {
    if lines == [] {
      assert Written(lines) + tail == tail;
      if tail != [] {
        assert FirstNewline(tail) == |tail|;
      }
    } else {
      WrittenFirst(lines);
      var rest := Written(lines[1..]) + tail;
      assert Written(lines) + tail == lines[0] + [NEWLINE] + rest;
      LinesStep(lines[0], rest);
      LinesOfWritten(lines[1..], tail);
      assert lines == [lines[0]] + lines[1..];
    }
  }

  lemma {:induction false} CompletePart(s: Bytes, tail: Bytes)
    requires NEWLINE !in tail && (s == [] || s[|s| - 1] == NEWLINE)
    ensures BeforeLastNewline(s + tail) == if s == [] then [] else s[..|s| - 1]
  {
    if tail == [] {
      assert s + tail == s;
    } else {
      var u := s + tail;
      assert u[..|u| - 1] == s + tail[..|tail| - 1];
      assert u[|u| - 1] == tail[|tail| - 1];
      CompletePart(s, tail[..|tail| - 1]);
    }
  }

  lemma {:induction false} UntornLines(lines: seq<Bytes>)
    requires AllLines(lines)
    ensures !Torn(Written(lines)) && Lines(Complete(Written(lines))) == lines
  {
    LinesOfWritten(lines, []);
    assert Written(lines) + [] == Written(lines);
    assert lines + [] == lines;
  }

  lemma {:induction false} TornLines(lines: seq<Bytes>, tail: Bytes)
    requires AllLines(lines) && NEWLINE !in tail && tail != []
    ensures Torn(Written(lines) + tail) && Lines(Complete(Written(lines) + tail)) == lines
  {
    var written := Written(lines);
    var s := written + tail;
    assert s[|s| - 1] == tail[|tail| - 1];
    assert tail[|tail| - 1] in tail;
    CompletePart(written, tail);
    if lines != [] {
      LinesUnclosed(lines);
    }
  }

  lemma {:induction false} LinesUnclosed(lines: seq<Bytes>)
    requires AllLines(lines) && lines != []
    ensures Lines(Written(lines)[..|Written(lines)| - 1]) == lines
  {
    var init, last := lines[..|lines| - 1], lines[|lines| - 1];
    assert Written(lines)[..|Written(lines)| - 1] == Written(init) + last;
    LinesOfWritten(init, last);
    assert init + [last] == lines;
  }

  /** A torn log reads as its complete lines, whatever the tail. */
  lemma {:induction false} TornReads<S>(codec: Codec<S>, lines: seq<Bytes>, tail: Bytes)
    requires AllLines(lines) && NEWLINE !in tail && Valid(Written(lines) + tail)
    ensures Read(codec, Written(lines) + tail) == Outcome(codec, lines, tail != [])
  {
    if tail == [] {
      UntornLines(lines);
      assert Written(lines) + tail == Written(lines);
    } else {
      TornLines(lines, tail);
    }
  }

  /** The m-th line is the one the cut falls into, or there is none left. */
  predicate CutIn(lines: seq<Bytes>, k: nat, m: nat) {
    && m <= |lines|
    && |Written(lines[..m])| <= k
    && (m < |lines| ==> k < |Written(lines[..m + 1])|)
    && (m == |lines| ==> k == |Written(lines)|)
  }

  lemma {:induction false} WrittenSplit(lines: seq<Bytes>, m: nat)
    requires m <= |lines|
    ensures exists rest :: Written(lines) == Written(lines[..m]) + rest
  {
    if m == |lines| {
      assert lines[..m] == lines;
      assert Written(lines) == Written(lines[..m]) + [];
    } else {
      WrittenSplit(lines[..|lines| - 1], m);
      assert lines[..|lines| - 1][..m] == lines[..m];
      var rest :| Written(lines[..|lines| - 1]) == Written(lines[..m]) + rest;
      assert Written(lines) == Written(lines[..m]) + (rest + lines[|lines| - 1] + [NEWLINE]);
    }
  }

  lemma {:induction false} CutSplits(lines: seq<Bytes>, k: nat, m: nat) returns (tail: Bytes)
    requires AllLines(lines) && CutIn(lines, k, m) && k <= |Written(lines)|
    ensures Written(lines)[..k] == Written(lines[..m]) + tail && NEWLINE !in tail
    ensures tail != [] <==> k > 0 && Written(lines)[k - 1] != NEWLINE
  {
    var whole := Written(lines);
    if m == |lines| {
      assert lines[..m] == lines;
      tail := [];
      assert whole[..k] == Written(lines[..m]) + tail;
      assert k > 0 ==> whole[k - 1] == NEWLINE;
    } else {
      WrittenSplit(lines, m + 1);
      var rest :| whole == Written(lines[..m + 1]) + rest;
      assert lines[..m + 1][..m] == lines[..m];
      var done := Written(lines[..m]);
      assert Written(lines[..m + 1]) == done + lines[m] + [NEWLINE];
      tail := lines[m][..k - |done|];
      assert whole[..k] == done + tail;
      if tail != [] {
        assert whole[k - 1] == tail[|tail| - 1];
      } else if k > 0 {
        assert m > 0;
        assert whole[k - 1] == done[|done| - 1];
      }
    }
  }

  /** Torn-write tolerance: a log cut anywhere reads as exactly the lines whose newline is
      inside, degraded exactly when the rest is not empty; it fails to read if and only if
      the cut falls inside a character. */
  lemma {:induction false} AnyPrefixReads<S>(codec: Codec<S>, lines: seq<Bytes>, k: nat, m: nat)
    requires AllLines(lines) && k <= |Written(lines)| && CutIn(lines, k, m)
    ensures Read(codec, Written(lines)[..k])
            == if !IsCharBoundary(Written(lines), k) then Err(Io)
               else Outcome(codec, lines[..m], k > 0 && Written(lines)[k - 1] != NEWLINE)
  {
    WrittenValid(lines);
    ValidPrefix(Written(lines), k);
    var tail := CutSplits(lines, k, m);
    if IsCharBoundary(Written(lines), k) {
      TornReads(codec, lines[..m], tail);
    }
  }

  /** Every cut falls into one of the lines, or after the last. */
  lemma {:induction false} CutExists(lines: seq<Bytes>, k: nat) returns (m: nat)
    requires k <= |Written(lines)|
    ensures CutIn(lines, k, m)
  {
    assert lines[..|lines|] == lines;
    if k == |Written(lines)| {
      m := |lines|;
    } else {
      var init := lines[..|lines| - 1];
      if k >= |Written(init)| {
        m := |init|;
        assert lines[..m + 1] == lines;
      } else {
        m := CutExists(init, k);
        assert init[..m] == lines[..m];
        assert m < |init| ==> init[..m + 1] == lines[..m + 1];
      }
    }
  }

  ghost predicate ParseTo<S>(codec: Codec<S>, lines: seq<Bytes>, snapshots: seq<S>) {
    && |lines| == |snapshots|
    && forall i :: 0 <= i < |lines| ==> !codec.blank(lines[i]) && codec.parse(lines[i]) == Some(snapshots[i])
  }

  lemma {:induction false} AllGood<S>(codec: Codec<S>, lines: seq<Bytes>, snapshots: seq<S>)
    requires ParseTo(codec, lines, snapshots)
    ensures Good(codec, lines) == snapshots && Bad(codec, lines) == 0
  {
    if lines != [] {
      AllGood(codec, lines[..|lines| - 1], snapshots[..|lines| - 1]);
    }
  }

  /** A crash while writing loses at most the record being written. */
  lemma {:induction false} CrashLosesOnlyTheTail<S>(codec: Codec<S>, lines: seq<Bytes>, snapshots: seq<S>, k: nat, m: nat)
    requires AllLines(lines) && ParseTo(codec, lines, snapshots)
    requires k <= |Written(lines)| && CutIn(lines, k, m) && IsCharBoundary(Written(lines), k)
    ensures var torn := k > 0 && Written(lines)[k - 1] != NEWLINE;
            Read(codec, Written(lines)[..k]) == Ok(HealthSnapshotLog(snapshots[..m], torn, torn, 0))
  {
    AnyPrefixReads(codec, lines, k, m);
    AllGood(codec, lines[..m], snapshots[..m]);
  }

  // ----- appending after a torn write -----

  /** The next record is glued to the torn tail: the reader sees one line made of both. */
  lemma {:induction false} AppendAfterTear<S>(codec: Codec<S>, lines: seq<Bytes>, tail: Bytes, record: Bytes)
    requires AllLines(lines) && Line(record) && NEWLINE !in tail && Valid(tail)
    ensures Read(codec, Written(lines) + tail + record + [NEWLINE]) == Outcome(codec, lines + [tail + record], false)
  {
    var glued := tail + record;
    GluedLine(tail, record);
    GluedWritten(lines, tail, record);
    WrittenValid(lines + [glued]);
    UntornLines(lines + [glued]);
  }

  lemma {:induction false} GluedLine(tail: Bytes, record: Bytes)
    requires Line(record) && NEWLINE !in tail && Valid(tail)
    ensures Line(tail + record)
  {
    ValidConcat(tail, record);
    assert (tail + record)[|tail + record| - 1] == record[|record| - 1];
  }

  lemma {:induction false} GluedWritten(lines: seq<Bytes>, tail: Bytes, record: Bytes)
    ensures Written(lines + [tail + record]) == Written(lines) + tail + record + [NEWLINE]
  {
    assert (lines + [tail + record])[..|lines|] == lines;
    assert Written(lines) + (tail + record) + [NEWLINE] == Written(lines) + tail + record + [NEWLINE];
  }

  /** A log cut inside a character and then appended to can never be read again. */
  lemma {:induction false} CutCharacterIsFatal<S>(codec: Codec<S>, s: Bytes, more: Bytes)
    requires !Valid(s) && more != [] && !Continuation(more[0])
    ensures Read(codec, s + more) == Err(Io)
  {
    assert (s + more)[..|s|] == s;
    assert (s + more)[|s|] == more[0];
    if Valid(s + more) {
      ValidPrefix(s + more, |s|);
    }
  }

  // ----- lines one by one -----

  /** The lines before and after a line are read as if it were not there: a blank one adds
      nothing, one that parses its record, any other one to the count of malformed ones. */
  lemma {:induction false} EachLineForItself<S>(codec: Codec<S>, before: seq<Bytes>, line: Bytes, after: seq<Bytes>)
    ensures Good(codec, before + [line] + after)
         == Good(codec, before) + (if codec.blank(line) then [] else match codec.parse(line) case Some(s) => [s] case None => [])
            + Good(codec, after)
    ensures Bad(codec, before + [line] + after)
         == Bad(codec, before) + (if !codec.blank(line) && codec.parse(line) == None then 1 else 0) + Bad(codec, after)
    ensures Good(codec, []) == [] && Bad(codec, []) == 0
  {
    var all := before + [line] + after;
    if after == [] {
      assert all == before + [line] && (before + [line])[..|before|] == before;
    } else {
      var init := after[..|after| - 1];
      EachLineForItself(codec, before, line, init);
      assert all[..|all| - 1] == before + [line] + init && all[|all| - 1] == after[|after| - 1];
    }
  }

  /** Up to three malformed lines are tolerated and counted; a fourth makes the log corrupt. */
  lemma {:induction false} ToleratesThree<S>(codec: Codec<S>, lines: seq<Bytes>, torn: bool)
    ensures match Outcome(codec, lines, torn)
            case Ok(log) => Bad(codec, lines) <= 3 && log.corruptLines == Bad(codec, lines) && log.snapshots == Good(codec, lines)
                            && log.truncatedTail == torn && (log.degraded <==> torn || Bad(codec, lines) > 0)
            case Err(e) => Bad(codec, lines) > 3 && e == CorruptLog(4, 3)
  {}

  /** A carriage return before the newline is not part of the line. */
  lemma {:induction false} ReturnIsDropped(line: Bytes, rest: Bytes)
    requires forall i :: 0 <= i < |line| ==> line[i] != 10
    ensures Lines(line + [13] + [10] + rest) == [line] + Lines(rest)
  {
    var longer := line + [13];
    assert longer[..|longer| - 1] == line;
    LinesStep(longer, rest);
  }
}
