/** procLogWriter of internal/mtproto/process.go: a byte stream cut into writes in any
    way comes out as the same lines. A character stands for a byte. */
module LineSplitter {
  import opened Text

  function NewlineFrom(s: string, from: nat): (i: nat)
    requires from <= |s|
    ensures from <= i <= |s| && (i < |s| ==> s[i] == '\n')
    ensures forall j :: from <= j < i ==> s[j] != '\n'
    decreases |s| - from
  {
    if from == |s| || s[from] == '\n' then from else NewlineFrom(s, from + 1)
  }

  /** strings.IndexByte(s, '\n'), or the length when there is none. */
  function NewlineAt(s: string): (i: nat)
    ensures i <= |s| && (i < |s| ==> s[i] == '\n')
    ensures forall j :: 0 <= j < i ==> s[j] != '\n'
  {
    NewlineFrom(s, 0)
  }

  /** The lines that are finished by a newline. */
  function Finished(s: string): seq<string>
    decreases |s|
  {
    var i := NewlineAt(s);
    if i == |s| then [] else [s[..i]] + Finished(s[i + 1..])
  }

  /** What stands after the last newline. */
  function Tail(s: string): string
    decreases |s|
  {
    var i := NewlineAt(s);
    if i == |s| then s else Tail(s[i + 1..])
  }

  /** All lines of a text, the last one unfinished (strings.Split at newlines). */
  function Lines(s: string): seq<string> {
    Finished(s) + [Tail(s)]
  }

  function TrimRightCR(s: string): string {
    if s != [] && s[|s| - 1] == '\r' then TrimRightCR(s[..|s| - 1]) else s
  }

  /** What one line adds to the log: itself trimmed, or nothing when blank. */
  function Emitted(trimSpace: string -> string, line: string): seq<string> {
    var trimmed := trimSpace(TrimRightCR(line));
    if trimmed == "" then [] else [trimmed]
  }

  function Returns(n: nat): string {
    if n == 0 then "" else Returns(n - 1) + "\r"
  }

  /** A line that ends in carriage returns is logged as the line without them, trimmed,
      and not at all when nothing is left. */
  lemma {:induction false} ReturnsDropped(trimSpace: string -> string, line: string, n: nat)
    requires line == "" || line[|line| - 1] != '\r'
    ensures Emitted(trimSpace, line + Returns(n)) == if trimSpace(line) == "" then [] else [trimSpace(line)]
  {
    if n == 0 {
      assert line + "" == line;
    } else {
      ReturnsDropped(trimSpace, line, n - 1);
      var s := line + Returns(n);
      Reassociate(line, Returns(n - 1), "\r");
      assert s[..|s| - 1] == line + Returns(n - 1);
    }
  }

  function EmittedAll(trimSpace: string -> string, lines: seq<string>): seq<string> {
    if lines == [] then [] else Emitted(trimSpace, lines[0]) + EmittedAll(trimSpace, lines[1..])
  }

  function LastOf(log: seq<string>): string {
    if log == [] then "" else log[|log| - 1]
  }

  class ProcLogWriter {
    var buf: string
    var lastLine: string
    var log: seq<string>
    const trimSpace: string -> string

    constructor (trimSpace: string -> string)
      ensures this.trimSpace == trimSpace && buf == "" && lastLine == "" && log == []
    {
      this.trimSpace := trimSpace;
      buf, lastLine, log := "", "", [];
    }

    ghost predicate Valid()
      reads this
    {
      lastLine == LastOf(log)
    }

    method Write(p: string) returns (n: int)
      requires Valid()
      modifies this
      ensures Valid() && n == |p|
      ensures log == old(log) + EmittedAll(trimSpace, Finished(old(buf) + p))
      ensures buf == Tail(old(buf) + p)
    {
      buf := buf + p;
      ghost var all := buf;
      ghost var start := log;
      assert start + EmittedAll(trimSpace, Finished(all)) == start + EmittedAll(trimSpace, Finished(buf));
      while true
        invariant Valid() && Tail(buf) == Tail(all)
        invariant log + EmittedAll(trimSpace, Finished(buf)) == start + EmittedAll(trimSpace, Finished(all))
        decreases |buf|
      {
        var i := NewlineAt(buf);
        if i == |buf| {
          break;
        }
        var line := buf[..i];
        ghost var rest := Finished(buf[i + 1..]);
        assert Finished(buf) == [line] + rest && Finished(buf)[0] == line && Finished(buf)[1..] == rest;
        Reassociate(log, Emitted(trimSpace, line), EmittedAll(trimSpace, rest));
        buf := buf[i + 1..];
        EmitLocked(line);
      }
      return |p|;
    }

    /** Emits the unfinished line once the process has exited. */
    method Flush()
      requires Valid()
      modifies this
      ensures Valid() && buf == ""
      ensures log == old(log) + if old(buf) == "" then [] else Emitted(trimSpace, old(buf))
    {
      if buf != "" {
        var line := buf;
        buf := "";
        EmitLocked(line);
      }
    }

    method EmitLocked(line: string)
      requires Valid()
      modifies `lastLine, `log
      ensures Valid() && log == old(log) + Emitted(trimSpace, line)
    {
      var trimmed := trimSpace(TrimRightCR(line));
      if trimmed == "" {
        return;
      }
      lastLine := trimmed;
      log := log + [trimmed];
    }
  }

  // ------------------------------------------------------------ whole streams

  lemma NewlineAppend(a: string, b: string)
    ensures NewlineAt(a) < |a| ==> NewlineAt(a + b) == NewlineAt(a)
  {
    var i := NewlineAt(a);
    if i < |a| {
      var j := NewlineAt(a + b);
      assert (a + b)[i] == '\n' && forall k :: 0 <= k < i ==> (a + b)[k] == a[k];
      assert j <= i;
      assert !(j < i);
    }
  }

  lemma FirstLine(s: string)
    requires NewlineAt(s) < |s|
    ensures var i := NewlineAt(s);
      Finished(s) == [s[..i]] + Finished(s[i + 1..]) && Tail(s) == Tail(s[i + 1..])
  {
  }

  lemma NoLine(s: string)
    requires NewlineAt(s) == |s|
    ensures Finished(s) == [] && Tail(s) == s
  {
  }

  lemma FirstLineAppend(a: string, b: string)
    requires NewlineAt(a) < |a|
    ensures var i := NewlineAt(a);
      && Finished(a + b) == [a[..i]] + Finished(a[i + 1..] + b)
      && Tail(a + b) == Tail(a[i + 1..] + b)
  {
    var i := NewlineAt(a);
    NewlineAppend(a, b);
    FirstLine(a + b);
    assert (a + b)[..i] == a[..i] && (a + b)[i + 1..] == a[i + 1..] + b;
  }

  lemma {:induction false} TailResumes(a: string, b: string)
    ensures Tail(a + b) == Tail(Tail(a) + b)
    decreases |a|
  {
    if NewlineAt(a) < |a| {
      FirstLine(a);
      FirstLineAppend(a, b);
      TailResumes(a[NewlineAt(a) + 1..], b);
    } else {
      NoLine(a);
    }
  }

  lemma {:induction false} FinishedResumes(a: string, b: string)
    ensures Finished(a + b) == Finished(a) + Finished(Tail(a) + b)
    decreases |a|
  {
    if NewlineAt(a) < |a| {
      var i := NewlineAt(a);
      FirstLine(a);
      FirstLineAppend(a, b);
      FinishedResumes(a[i + 1..], b);
      Reassociate([a[..i]], Finished(a[i + 1..]), Finished(Tail(a) + b));
    } else {
      NoLine(a);
      assert [] + Finished(a + b) == Finished(a + b);
    }
  }

  /** Splitting can stop after any prefix and go on from its unfinished tail. */
  lemma SplitResumes(a: string, b: string)
    ensures Finished(a + b) == Finished(a) + Finished(Tail(a) + b)
    ensures Tail(a + b) == Tail(Tail(a) + b)
  {
    FinishedResumes(a, b);
    TailResumes(a, b);
  }

  lemma {:induction false} EmittedAppend(trimSpace: string -> string, xs: seq<string>, ys: seq<string>)
    ensures EmittedAll(trimSpace, xs + ys) == EmittedAll(trimSpace, xs) + EmittedAll(trimSpace, ys)
  {
    if xs == [] {
      assert xs + ys == ys;
    } else {
      assert (xs + ys)[1..] == xs[1..] + ys;
      EmittedAppend(trimSpace, xs[1..], ys);
      Reassociate(Emitted(trimSpace, xs[0]), EmittedAll(trimSpace, xs[1..]), EmittedAll(trimSpace, ys));
    }
  }

  function Concat(chunks: seq<string>): string {
    if chunks == [] then "" else Concat(chunks[..|chunks| - 1]) + chunks[|chunks| - 1]
  }

  datatype Writer = Writer(buf: string, log: seq<string>)

  /** The writer after these writes, by the contract of Write. */
  function Written(trimSpace: string -> string, chunks: seq<string>): Writer {
    if chunks == [] then Writer("", [])
    else
      var w, p := Written(trimSpace, chunks[..|chunks| - 1]), chunks[|chunks| - 1];
      Writer(Tail(w.buf + p), w.log + EmittedAll(trimSpace, Finished(w.buf + p)))
  }

  /** The log after a final Flush, by its contract. */
  function Flushed(trimSpace: string -> string, w: Writer): seq<string> {
    w.log + if w.buf == "" then [] else Emitted(trimSpace, w.buf)
  }

  /** Between writes the buffer is exactly the unfinished tail of the stream, and the
      log holds its finished lines. */
  lemma {:induction false} WritesFollowStream(trimSpace: string -> string, chunks: seq<string>)
    ensures Written(trimSpace, chunks)
         == Writer(Tail(Concat(chunks)), EmittedAll(trimSpace, Finished(Concat(chunks))))
  {
    if chunks != [] {
      var earlier, p := chunks[..|chunks| - 1], chunks[|chunks| - 1];
      WritesFollowStream(trimSpace, earlier);
      SplitResumes(Concat(earlier), p);
      EmittedAppend(trimSpace, Finished(Concat(earlier)), Finished(Tail(Concat(earlier)) + p));
    }
  }

  /** However a stream is cut into writes, writing and flushing it logs exactly the
      trimmed non-blank lines of the whole stream, in order. */
  lemma ChunkingInvisible(trimSpace: string -> string, chunks: seq<string>)
    requires trimSpace("") == ""
    ensures Flushed(trimSpace, Written(trimSpace, chunks)) == EmittedAll(trimSpace, Lines(Concat(chunks)))
  {
    WritesFollowStream(trimSpace, chunks);
    var s := Concat(chunks);
    EmittedAppend(trimSpace, Finished(s), [Tail(s)]);
    assert EmittedAll(trimSpace, [Tail(s)]) == Emitted(trimSpace, Tail(s)) + [];
    assert Emitted(trimSpace, "") == [];
  }

  /** Lines is splitting: no line holds a newline, and joining them by newlines gives
      the text back. */
  lemma {:induction false} LinesJoinBack(s: string)
    ensures Join(Lines(s), "\n") == s
    ensures forall i :: 0 <= i < |Lines(s)| ==> Free(Lines(s)[i], '\n')
    decreases |s|
  {
    var i := NewlineAt(s);
    if i < |s| {
      var rest := s[i + 1..];
      LinesJoinBack(rest);
      assert Lines(s) == [s[..i]] + Lines(rest);
      assert Lines(s)[1..] == Lines(rest);
      assert s == s[..i] + "\n" + rest;
    } else {
      assert Lines(s) == [s];
    }
  }
}
