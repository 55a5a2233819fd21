/** client/FileHandler.cpp: reading, appending and replacing lines. */
module LineFiles {
  import opened Bytes

  const NEWLINE: byte := 0x0A

  predicate NewlineFree(s: bytes) {
    NEWLINE !in s
  }

  /** The place of the first newline, or the end. */
  function LineEnd(s: bytes): (k: nat)
    ensures k <= |s| && NewlineFree(s[..k])
    ensures k < |s| ==> s[k] == NEWLINE
  {
    if s == [] || s[0] == NEWLINE then 0
    else
      var k := 1 + LineEnd(s[1..]);
      assert s[..k] == [s[0]] + s[1..][..k - 1];
      k
  }

  /** What successive getline calls deliver until one of them meets the end of the file. */
  function Split(s: bytes): (lines: seq<bytes>)
    ensures lines != []
    decreases |s|
  {
    var k := LineEnd(s);
    if k == |s| then [s] else [s[..k]] + Split(s[k + 1..])
  }

  /** One getline call: a piece, and whether the end of the file was met. */
  lemma SplitStep(s: bytes)
    ensures var k := LineEnd(s);
      Split(s) == if k == |s| then [s] else [s[..k]] + Split(s[k + 1..])
  {
    var k := LineEnd(s);
    hide LineEnd;
    if k == |s| {
      assert Split(s) == [s];
    } else {
      assert Split(s) == [s[..k]] + Split(s[k + 1..]);
    }
  }

  /** One getline call: the piece, whether it met the end of the file, and what is left. */
  method GetLine(s: bytes) returns (line: bytes, eof: bool, rest: bytes)
    ensures Split(s) == [line] + if eof then [] else Split(rest)
    ensures eof ==> line == s
    ensures !eof ==> |rest| < |s|
  {
    hide Split, LineEnd;
    SplitStep(s);
    var k := LineEnd(s);
    line, eof := s[..k], k == |s|;
    rest := if eof then [] else s[k + 1..];
    assert eof ==> line == s && [line] + [] == [s];
  }

  /** The lines for which getline reports success: a final piece counts only when it is not empty. */
  function Lines(s: bytes): seq<bytes> {
    var pieces := Split(s);
    if pieces[|pieces| - 1] == [] then pieces[..|pieces| - 1] else pieces
  }

  function Join(lines: seq<bytes>): bytes {
    if lines == [] then [] else lines[0] + [NEWLINE] + Join(lines[1..])
  }

  ghost predicate AllNewlineFree(lines: seq<bytes>) {
    forall i :: 0 <= i < |lines| ==> NewlineFree(lines[i])
  }

  lemma {:induction false} LineEndOf(line: bytes, rest: bytes)
    requires NewlineFree(line)
    ensures LineEnd(line + [NEWLINE] + rest) == |line|
    decreases |line|
  {
    if line == [] {
    } else {
      assert (line + [NEWLINE] + rest)[1..] == line[1..] + [NEWLINE] + rest;
      LineEndOf(line[1..], rest);
    }
  }

  lemma SplitNothing()
    ensures Split([]) == [[]]
  {
  }

  lemma FirstAndRest(lines: seq<bytes>)
    requires AllNewlineFree(lines) && lines != []
    ensures NewlineFree(lines[0]) && AllNewlineFree(lines[1..])
  {
    hide NewlineFree;
  }

  /** Splitting undoes joining, up to the empty piece after the last newline. */
  lemma {:induction false} SplitJoin(lines: seq<bytes>)
    requires AllNewlineFree(lines)
    ensures Split(Join(lines)) == lines + [[]]
    decreases |lines|
  {
    hide LineEnd, Split, AllNewlineFree;
    if lines == [] {
      SplitNothing();
    } else {
      var (line, s, rest) := (lines[0], Join(lines), Join(lines[1..]));
      FirstAndRest(lines);
      LineEndOf(line, rest);
      assert s == line + [NEWLINE] + rest;
      assert s[..|line|] == line && s[|line| + 1..] == rest;
      SplitStep(s);
      SplitJoin(lines[1..]);
      assert [line] + (lines[1..] + [[]]) == lines + [[]];
    }
  }

  lemma {:induction false} JoinConcat(a: seq<bytes>, b: seq<bytes>)
    ensures Join(a + b) == Join(a) + Join(b)
    decreases |a|
  {
    if a == [] {
      assert a + b == b;
    } else {
      assert (a + b)[1..] == a[1..] + b;
      JoinConcat(a[1..], b);
    }
  }

  /** Line n of a file as readLine sees it: past the last piece it still succeeds once, with that piece. */
  function LineOf(s: bytes, n: nat): (bool, bytes)
    requires n > 0
  {
    var pieces := Split(s);
    if n <= |pieces| then (true, pieces[n - 1]) else (n == |pieces| + 1, pieces[|pieces| - 1])
  }

  /** Replaces line n, or appends when there are fewer. */
  function ReplaceLine(s: bytes, n: nat, source: bytes): bytes
    requires n > 0
  {
    var lines := Lines(s);
    Join(if |lines| < n then lines + [source] else lines[n - 1 := source])
  }

  // ---- What splitting, counting and replacing mean for any file ----

  function Newlines(s: bytes): nat {
    if s == [] then 0 else (if s[0] == 0x0A then 1 else 0) + Newlines(s[1..])
  }

  lemma {:induction false} NewlinesConcat(a: bytes, b: bytes)
    ensures Newlines(a + b) == Newlines(a) + Newlines(b)
    decreases |a|
  {
    if a == [] {
      assert a + b == b;
    } else {
      assert (a + b)[1..] == a[1..] + b;
      NewlinesConcat(a[1..], b);
    }
  }

  lemma {:induction false} NoNewlines(s: bytes)
    requires NewlineFree(s)
    ensures Newlines(s) == 0
    decreases |s|
  {
    if s == [] {
    } else {
      NoNewlines(s[1..]);
    }
  }

  /** The pieces hold no newline, are one more than the newlines, and give the file back. */
  lemma {:induction false} SplitMeans(s: bytes)
    ensures AllNewlineFree(Split(s)) && |Split(s)| == Newlines(s) + 1
    ensures Join(Split(s)[..|Split(s)| - 1]) + Split(s)[|Split(s)| - 1] == s
    decreases |s|
  {
    hide LineEnd, Split, AllNewlineFree;
    SplitStep(s);
    var k := LineEnd(s);
    assert AllNewlineFree([s[..k]]) by {
      OneIsFree(s[..k]);
    }
    if k == |s| {
      assert s[..k] == s;
      NoNewlines(s);
      assert Split(s)[..0] == [];
    } else {
      var (line, rest) := (s[..k], s[k + 1..]);
      SplitMeans(rest);
      assert s == line + ([NEWLINE] + rest);
      NewlinesConcat(line, [NEWLINE] + rest);
      NoNewlines(line);
      assert ([NEWLINE] + rest)[1..] == rest;
      PiecesOfRest(s, line, rest);
      FreeConcat([line], Split(rest));
    }
  }

  lemma OneIsFree(line: bytes)
    requires NewlineFree(line)
    ensures AllNewlineFree([line])
  {
  }

  lemma FreeConcat(a: seq<bytes>, b: seq<bytes>)
    requires AllNewlineFree(a) && AllNewlineFree(b)
    ensures AllNewlineFree(a + b)
  {
    hide NewlineFree;
  }

  lemma PiecesOfRest(s: bytes, line: bytes, rest: bytes)
    requires s == line + ([NEWLINE] + rest) && Split(s) == [line] + Split(rest)
    requires Join(Split(rest)[..|Split(rest)| - 1]) + Split(rest)[|Split(rest)| - 1] == rest
    ensures Join(Split(s)[..|Split(s)| - 1]) + Split(s)[|Split(s)| - 1] == s
  {
    hide Split;
    var (pieces, n) := (Split(rest), |Split(rest)| - 1);
    assert Split(s)[..n + 1] == [line] + pieces[..n];
    assert ([line] + pieces[..n])[1..] == pieces[..n];
    var tail := Join(pieces[..n]);
    assert Join([line] + pieces[..n]) == line + [NEWLINE] + tail;
    assert line + [NEWLINE] + tail + pieces[n] == line + ([NEWLINE] + (tail + pieces[n]));
  }

  /** A line is found up to one past the last piece; what is delivered is the piece, or the last one. */
  lemma LineOfMeans(s: bytes, n: nat)
    requires n > 0
    ensures |Split(s)| == Newlines(s) + 1
    ensures LineOf(s, n).0 <==> n <= Newlines(s) + 2
    ensures LineOf(s, n).1 == Split(s)[if n <= Newlines(s) then n - 1 else Newlines(s)]
  {
    hide Split, Newlines;
    SplitMeans(s);
  }

  /** The lines, each ended by a newline, are the file, with a newline added where the last one lacks it. */
  lemma LinesMean(s: bytes)
    ensures AllNewlineFree(Lines(s))
    ensures Join(Lines(s)) == if s == [] || s[|s| - 1] == 0x0A then s else s + [0x0A]
  {
    hide Split, Join, Newlines;
    SplitMeans(s);
    var (pieces, n) := (Split(s), |Split(s)| - 1);
    if pieces[n] == [] {
      assert Join(pieces[..n]) + [] == Join(pieces[..n]);
      JoinEnds(pieces[..n]);
    } else {
      assert s[|s| - 1] == pieces[n][|pieces[n]| - 1];
      assert pieces == pieces[..n] + [pieces[n]];
      JoinConcat(pieces[..n], [pieces[n]]);
      JoinOne(pieces[n]);
      assert Join(pieces[..n]) + (pieces[n] + [NEWLINE]) == s + [NEWLINE];
    }
  }

  lemma JoinOne(line: bytes)
    ensures Join([line]) == line + [NEWLINE]
  {
    assert [line][1..] == [];
    assert line + [NEWLINE] + [] == line + [NEWLINE];
  }

  lemma JoinEnds(lines: seq<bytes>)
    ensures if lines == [] then Join(lines) == [] else Join(lines) != [] && Join(lines)[|Join(lines)| - 1] == NEWLINE
  {
    if lines == [] {
    } else {
      var n := |lines| - 1;
      assert lines == lines[..n] + [lines[n]];
      JoinConcat(lines[..n], [lines[n]]);
      JoinOne(lines[n]);
    }
  }

  /** After a line is written the lines are those before, with that one replaced, or added when there are fewer. */
  lemma ReplaceMeans(s: bytes, n: nat, source: bytes)
    requires n > 0 && NewlineFree(source)
    ensures Lines(ReplaceLine(s, n, source)) ==
      if |Lines(s)| < n then Lines(s) + [source] else Lines(s)[n - 1 := source]
  {
    hide Join, Split;
    LinesMean(s);
    var lines := if |Lines(s)| < n then Lines(s) + [source] else Lines(s)[n - 1 := source];
    SplitJoin(lines);
    assert (lines + [[]])[..|lines|] == lines;
  }

  class FileHandler {
    var files: map<bytes, bytes>

    constructor ()
      ensures files == map[]
    {
      files := map[];
    }

    /**
     `held` is what the destination holds before. A file that is not there fails every getline without
     ever meeting an end, so the count runs up to the line asked for, and success is reported.
     */
    method ReadLine(path: bytes, lineNumber: nat, held: bytes) returns (ok: bool, destination: bytes)
      requires lineNumber > 0
      ensures (ok, destination) == if path in files then LineOf(files[path], lineNumber) else (true, held)
    {
      hide Split;
      destination := held;
      var lineCount := 1;
      if path !in files {
        while lineCount != lineNumber
          invariant lineCount <= lineNumber
          decreases lineNumber - lineCount
        {
          lineCount := lineCount + 1;
        }
        return true, destination;
      }
      var rest := files[path];
      ghost var (all, read) := (Split(files[path]), []);
      ghost var todo := all;
      var eof := false;
      while !eof
        invariant lineCount == |read| + 1 <= lineNumber + 1
        invariant read != [] ==> destination == read[|read| - 1]
        invariant all == read + todo
        invariant if eof then todo == [] && read != [] else todo == Split(rest) && lineCount <= lineNumber
        decreases !eof, |rest|
      {
        destination, eof, rest := GetLine(rest);
        assert all[|read|] == destination;
        if lineCount == lineNumber {
          return true, destination;
        }
        assert read + todo == (read + [destination]) + todo[1..];
        read, todo := read + [destination], todo[1..];
        lineCount := lineCount + 1;
      }
      ok := lineCount >= lineNumber;
    }

    function ContentOf(path: bytes): bytes
      reads this
    {
      if path in files then files[path] else []
    }

    method AppendLine(path: bytes, source: bytes)
      modifies this
      ensures files == old(files)[path := old(ContentOf(path)) + Join([source])]
    {
      var content := ContentOf(path);
      assert Join([source]) == source + [NEWLINE];
      files := files[path := content + source + [NEWLINE]];
      assert content + source + [NEWLINE] == content + Join([source]);
    }

    /** A file that is not there reads as no lines and is created. */
    method WriteLine(path: bytes, lineNumber: nat, source: bytes)
      requires lineNumber > 0
      modifies this
      ensures files == old(files)[path := ReplaceLine(old(ContentOf(path)), lineNumber, source)]
    {
      var lines := ReadAllLines(ContentOf(path));
      if |lines| < lineNumber {
        lines := lines + [source];
      } else {
        lines := lines[lineNumber - 1 := source];
      }
      var content: bytes := [];
      for i := 0 to |lines|
        invariant content == Join(lines[..i])
        modifies {}
      {
        JoinConcat(lines[..i], [lines[i]]);
        assert lines[..i] + [lines[i]] == lines[..i + 1];
        assert Join([lines[i]]) == lines[i] + [NEWLINE];
        content := content + (lines[i] + [NEWLINE]);
      }
      assert lines[..|lines|] == lines;
      files := files[path := content];
    }
  }

  /** while (getline(...)) push_back: stops at the first call that delivers nothing. */
  method ReadAllLines(content: bytes) returns (lines: seq<bytes>)
    ensures lines == Lines(content)
  {
    hide Split;
    lines := [];
    var rest := content;
    ghost var all := Split(content);
    var eof := false;
    while !eof
      invariant !eof ==> all == lines + Split(rest)
      invariant eof ==> lines == Lines(content)
      decreases !eof, |rest|
    {
      ghost var todo := Split(rest);
      var line;
      line, eof, rest := GetLine(rest);
      if eof {
        assert all == lines + [line] && all[..|all| - 1] == lines;
      } else {
        assert lines + todo == (lines + [line]) + Split(rest);
      }
      if !eof || line != [] {
        lines := lines + [line];
      }
    }
  }
}
