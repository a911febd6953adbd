/** `read_blocks(input_file, i, j)` of the plotting scripts: the lines of a
    data file are split into blocks at runs of comment lines, and blocks i
    through j are returned with Python's slice rules.  Both scripts carry
    the same function; the file is given as its sequence of lines, each as
    Python's line iteration yields it (with its line terminator). */
module ReadBlocks {
  import opened Geometry

  /** `not line or line.startswith('#')`: an empty or a comment line. */
  predicate IsSeparator(line: string)
  {
    |line| == 0 || line[0] == '#'
  }

  /** One turn of the loop on line `line` from the state `state`: the
      number of separator lines just read and the blocks so far, or None
      once a data line arrived with no block open (`blocks[-1]` of an
      empty list raises IndexError). */
  function Step(state: Option<(nat, seq<seq<string>>)>, line: string): (r: Option<(nat, seq<seq<string>>)>)
    ensures state.None? ==> r.None?
    ensures r.Some? ==> state.Some? && |state.value.1| <= |r.value.1| <= |state.value.1| + 1
    ensures r.Some? ==> (r.value.0 == 0 <==> !IsSeparator(line))
    ensures r.None? && state.Some? ==> !IsSeparator(line) && |state.value.1| == 0
  {
    match state
    case None => None
    case Some((emptyLines, blocks)) =>
      if IsSeparator(line) then
        Some((emptyLines + 1, if emptyLines == 0 then blocks + [[]] else blocks))
      else if |blocks| == 0 then None
      else Some((0, blocks[..|blocks| - 1] + [blocks[|blocks| - 1] + [line]]))
  }

  /** The state of the loop after the lines `lines`. */
  function Scan(lines: seq<string>): (r: Option<(nat, seq<seq<string>>)>)
    ensures r.Some? ==> |r.value.1| <= |lines|
  {
    if |lines| == 0 then Some((0, [])) else Step(Scan(lines[..|lines| - 1]), lines[|lines| - 1])
  }

  /** The blocks of a file, concatenated. */
  function Flatten(blocks: seq<seq<string>>): seq<string>
  {
    if |blocks| == 0 then [] else Flatten(blocks[..|blocks| - 1]) + blocks[|blocks| - 1]
  }

  /** The data lines of a file, in order. */
  function DataLines(lines: seq<string>): seq<string>
  {
    if |lines| == 0 then []
    else DataLines(lines[..|lines| - 1]) + (if IsSeparator(lines[|lines| - 1]) then [] else [lines[|lines| - 1]])
  }

  /** The number of separator runs in a file: separator lines that follow
      a data line or open the file. */
  function RunStarts(lines: seq<string>): nat
  {
    if |lines| == 0 then 0
    else
      var n := |lines| - 1;
      RunStarts(lines[..n]) + (if IsSeparator(lines[n]) && (n == 0 || !IsSeparator(lines[n - 1])) then 1 else 0)
  }

  /** A slice bound of Python: a negative bound counts from the end, and
      the result is clamped to [0, n]. */
  function SliceBound(x: int, n: nat): (r: nat)
    ensures r <= n
    ensures 0 <= x <= n ==> r == x
    ensures n < x ==> r == n
    ensures x < 0 <= x + n ==> r == x + n
    ensures x + n < 0 ==> r == 0
  {
    if x < 0 then (if x + n < 0 then 0 else x + n) else if n < x then n else x
  }

  /** `s[start:stop]` of Python. */
  function PySlice<T>(s: seq<T>, start: int, stop: int): (r: seq<T>)
    ensures |r| <= |s|
  {
    var a := SliceBound(start, |s|);
    var b := SliceBound(stop, |s|);
    if a < b then s[a..b] else []
  }

  /** `read_blocks(input_file, i, j)` over the file's lines: the loop over
      the lines, then `blocks[i:j + 1]`; None is the IndexError of a data
      line that precedes every separator. */
  method ReadBlocks(lines: seq<string>, i: int, j: int) returns (r: Option<seq<seq<string>>>)
    ensures Scan(lines).None? ==> r.None?
    ensures Scan(lines).Some? ==> r == Some(PySlice(Scan(lines).value.1, i, j + 1))
  {
    var emptyLines: nat := 0;
    var blocks: seq<seq<string>> := [];
    var k := 0;
    while k < |lines|
      invariant 0 <= k <= |lines|
      invariant Scan(lines[..k]) == Some((emptyLines, blocks))
    {
      var line := lines[k];
      ScanExtends(lines, k);
      if |line| == 0 || line[0] == '#' {
        if emptyLines == 0 {
          blocks := blocks + [[]];
        }
        emptyLines := emptyLines + 1;
      } else {
        if |blocks| == 0 {
          ScanStaysFailed(lines, k + 1);
          return None;
        }
        emptyLines := 0;
        blocks := blocks[..|blocks| - 1] + [blocks[|blocks| - 1] + [line]];
      }
      k := k + 1;
    }
    assert lines[..k] == lines;
    r := Some(PySlice(blocks, i, j + 1));
  }

  /** The scan of one more line is one more step. */
  lemma ScanExtends(lines: seq<string>, k: nat)
    requires k < |lines|
    ensures Scan(lines[..k + 1]) == Step(Scan(lines[..k]), lines[k])
  {
    assert lines[..k + 1][..k] == lines[..k];
  }

  /** Once the scan has failed on a prefix it fails on the whole file. */
  lemma {:induction false} ScanStaysFailed(lines: seq<string>, k: nat)
    requires k <= |lines| && Scan(lines[..k]).None?
    ensures Scan(lines).None?
    decreases |lines| - k
  {
    if k < |lines| {
      ScanExtends(lines, k);
      ScanStaysFailed(lines, k + 1);
    } else {
      assert lines[..k] == lines;
    }
  }

  /** The scan fails exactly when the file opens with a data line; when it
      succeeds, the blocks are not empty once the file is not, and the
      separator counter is zero exactly after a data line (or at the
      start). */
  lemma {:induction false} ScanState(lines: seq<string>)
    ensures Scan(lines).None? <==> 0 < |lines| && !IsSeparator(lines[0])
    ensures Scan(lines).Some? ==>
      (0 < |lines| ==> 0 < |Scan(lines).value.1|) &&
      (Scan(lines).value.0 == 0 <==> |lines| == 0 || !IsSeparator(lines[|lines| - 1]))
  {
    if 1 < |lines| {
      var prefix := lines[..|lines| - 1];
      ScanState(prefix);
      assert prefix[0] == lines[0];
    }
  }

  /** When the scan succeeds the blocks hold the file's data lines, in
      order and each once. */
  lemma {:induction false} ScanKeepsData(lines: seq<string>)
    requires Scan(lines).Some?
    ensures Flatten(Scan(lines).value.1) == DataLines(lines)
  {
    if |lines| != 0 {
      var n := |lines| - 1;
      var prefix := lines[..n];
      ScanKeepsData(prefix);
      var blocks := Scan(prefix).value.1;
      if !IsSeparator(lines[n]) {
        var b := blocks[..|blocks| - 1] + [blocks[|blocks| - 1] + [lines[n]]];
        assert b[..|b| - 1] == blocks[..|blocks| - 1];
      } else if Scan(prefix).value.0 == 0 {
        var b := blocks + [[]];
        assert b[..|b| - 1] == blocks;
      }
    }
  }

  /** When the scan succeeds there is one block per separator run. */
  lemma {:induction false} ScanCountsRuns(lines: seq<string>)
    requires Scan(lines).Some?
    ensures |Scan(lines).value.1| == RunStarts(lines)
  {
    if |lines| != 0 {
      var n := |lines| - 1;
      var prefix := lines[..n];
      ScanCountsRuns(prefix);
      ScanState(prefix);
      if 0 < n {
        assert prefix[n - 1] == lines[n - 1];
      }
    }
  }

  /** A blank line of the file still carries its terminator, so it is a
      data line: only comment lines separate blocks. */
  lemma BlankLineIsData()
    ensures !IsSeparator("\n")
    ensures IsSeparator("#BLOCK HEADER time:0\n")
  {
  }

  /** For 0 <= i <= j the result is blocks i through j where they exist:
      the j - i + 1 blocks from i when j is a block, fewer at the end. */
  lemma {:induction false} SliceOfRange<T>(s: seq<T>, i: int, j: int)
    requires 0 <= i <= j
    ensures j < |s| ==> PySlice(s, i, j + 1) == s[i..j + 1] && |PySlice(s, i, j + 1)| == j - i + 1
    ensures i < |s| <= j ==> PySlice(s, i, j + 1) == s[i..]
    ensures |s| <= i ==> PySlice(s, i, j + 1) == []
  {
  }

  /** `read_blocks(f, 0, n)` keeps the first n + 1 blocks (all of them when
      there are fewer), and a last index of -1 (a stop of 0) selects nothing
      rather than everything. */
  lemma {:induction false} LeadingBlocks<T>(s: seq<T>, n: int)
    ensures 0 <= n ==> PySlice(s, 0, n + 1) == s[..if n + 1 < |s| then n + 1 else |s|]
    ensures PySlice(s, 0, 0) == []
  {
    if 0 <= n && |s| <= n + 1 {
      assert s[0..|s|] == s;
    }
  }
}
