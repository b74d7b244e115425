/** A module's output: text written to its streams in arbitrary pieces is cut into lines, and the
    last entries are kept in a ring buffer. */
module Output {
  import opened Prelude

  datatype Stream = Stdout | Stderr | System

  datatype Entry = Entry(stream: Stream, message: string)

  // ---------- cutting text into lines ----------

  predicate IsFirstNewline(text: string, k: nat) {
    k < |text| && text[k] == '\n' && '\n' !in text[..k]
  }

  function FirstNewline(text: string): (k: nat)
    requires '\n' in text
    ensures IsFirstNewline(text, k)
  {
    if text[0] == '\n' then 0
    else
      var k := 1 + FirstNewline(text[1..]);
      assert text[..k] == [text[0]] + text[1..][..k - 1];
      k
  }

  /** The complete lines of a text, without their newlines. */
  function RawLines(text: string): seq<string> {
    if '\n' !in text then [] else [text[..FirstNewline(text)]] + RawLines(text[FirstNewline(text) + 1..])
  }

  /** What comes after the last newline. */
  function Rest(text: string): (r: string)
    ensures '\n' !in r
  {
    if '\n' !in text then text else Rest(text[FirstNewline(text) + 1..])
  }

  /** A line without the carriage returns at its end. */
  function TrimCr(line: string): (r: string)
    ensures r <= line && (r != [] ==> r[|r| - 1] != '\r')
    ensures forall k :: |r| <= k < |line| ==> line[k] == '\r'
  {
    if line != [] && line[|line| - 1] == '\r' then TrimCr(line[..|line| - 1]) else line
  }

  function Trimmed(lines: seq<string>): (r: seq<string>)
    ensures |r| == |lines|
  {
    seq(|lines|, i requires 0 <= i < |lines| => TrimCr(lines[i]))
  }

  function Lines(text: string): seq<string> {
    Trimmed(RawLines(text))
  }

  /** Lines glued back together. */
  function Glued(lines: seq<string>): string {
    if lines == [] then [] else lines[0] + "\n" + Glued(lines[1..])
  }

  lemma Assoc(x: string, y: string, z: string)
    ensures (x + y) + z == x + (y + z)
  {}

  lemma CutAtFirst(text: string, k: nat)
    requires IsFirstNewline(text, k)
    ensures text == (text[..k] + "\n") + text[k + 1..]
  {}

  lemma {:induction false} LinesGlueBack(text: string)
    ensures Glued(RawLines(text)) + Rest(text) == text
    ensures forall i :: 0 <= i < |RawLines(text)| ==> '\n' !in RawLines(text)[i]
    decreases |text|
  {
    if '\n' in text {
      var k := FirstNewline(text);
      var tail := text[k + 1..];
      LinesGlueBack(tail);
      CutAtFirst(text, k);
      assert RawLines(text) == [text[..k]] + RawLines(tail);
      assert RawLines(text)[1..] == RawLines(tail);
      assert Glued(RawLines(text)) == (text[..k] + "\n") + Glued(RawLines(tail));
      Assoc(text[..k] + "\n", Glued(RawLines(tail)), Rest(tail));
    }
  }

  lemma {:induction false} FirstIsFirst(line: string, tail: string)
    requires '\n' !in line
    ensures
      var text := line + "\n" + tail;
      '\n' in text && FirstNewline(text) == |line| && text[|line| + 1..] == tail && text[..|line|] == line
    decreases |line|
  {
    var text := line + "\n" + tail;
    assert text[|line|] == '\n';
    if line != [] {
      assert line[0] in line;
      FirstIsFirst(line[1..], tail);
      assert text[1..] == line[1..] + "\n" + tail;
    }
  }

  /** Cutting is the only way to write a text as newline-free lines and a newline-free rest. */
  lemma {:induction false} LinesAreUnique(text: string, lines: seq<string>, rest: string)
    requires text == Glued(lines) + rest && '\n' !in rest
    requires forall i :: 0 <= i < |lines| ==> '\n' !in lines[i]
    ensures RawLines(text) == lines && Rest(text) == rest
    decreases |lines|
  {
    if lines == [] {
      assert text == rest;
    } else {
      var tail := Glued(lines[1..]) + rest;
      assert text == lines[0] + "\n" + tail;
      FirstIsFirst(lines[0], tail);
      LinesAreUnique(tail, lines[1..], rest);
    }
  }

  lemma {:induction false} GluedSplits(a: seq<string>, b: seq<string>)
    ensures Glued(a + b) == Glued(a) + Glued(b)
  {
    if a == [] {
      assert a + b == b;
    } else {
      GluedSplits(a[1..], b);
      assert (a + b)[1..] == a[1..] + b;
    }
  }

  /** Writing in two pieces, with the rest of the first kept in between, commits the same lines and
      leaves the same rest as writing at once. */
  lemma ChunksJoin(a: string, b: string)
    ensures RawLines(a + b) == RawLines(a) + RawLines(Rest(a) + b)
    ensures Lines(a + b) == Lines(a) + Lines(Rest(a) + b)
    ensures Rest(a + b) == Rest(Rest(a) + b)
  {
    var mid := Rest(a) + b;
    var first, second := RawLines(a), RawLines(mid);
    LinesGlueBack(a);
    LinesGlueBack(mid);
    GluedSplits(first, second);
    Assoc(Glued(first), Rest(a), b);
    Assoc(Glued(first), Glued(second), Rest(mid));
    LinesAreUnique(a + b, first + second, Rest(mid));
    TrimmedSplits(first, second);
  }

  lemma TrimmedSplits(a: seq<string>, b: seq<string>)
    ensures Trimmed(a + b) == Trimmed(a) + Trimmed(b)
  {}

  // ---------- whole runs of writes ----------

  /** A write to one of the streams, or an entry pushed as it is. */
  datatype Op = Write(stream: Stream, text: string) | Note(entry: Entry)

  datatype State = State(stdout: string, stderr: string, pushed: seq<Entry>)

  function Entries(stream: Stream, lines: seq<string>): (r: seq<Entry>)
    ensures |r| == |lines|
  {
    seq(|lines|, i requires 0 <= i < |lines| => Entry(stream, lines[i]))
  }

  /** Anything not written to standard output is treated as standard error. */
  function Apply(s: State, op: Op): State {
    match op
    case Note(entry) => s.(pushed := s.pushed + [entry])
    case Write(Stdout, text) =>
      s.(stdout := Rest(s.stdout + text), pushed := s.pushed + Entries(Stdout, Lines(s.stdout + text)))
    case Write(_, text) =>
      s.(stderr := Rest(s.stderr + text), pushed := s.pushed + Entries(Stderr, Lines(s.stderr + text)))
  }

  function Exec(ops: seq<Op>): State {
    if ops == [] then State([], [], []) else Apply(Exec(ops[..|ops| - 1]), ops[|ops| - 1])
  }

  predicate WritesTo(op: Op, stream: Stream) {
    op.Write? && (op.stream == Stdout <==> stream == Stdout)
  }

  /** Everything written to a stream, in order. */
  function Written(ops: seq<Op>, stream: Stream): string {
    if ops == [] then []
    else Written(ops[..|ops| - 1], stream) + if WritesTo(ops[|ops| - 1], stream) then ops[|ops| - 1].text else []
  }

  /** The messages of one stream's entries, in order. */
  function MessagesOf(entries: seq<Entry>, stream: Stream): seq<string> {
    if entries == [] then []
    else MessagesOf(entries[..|entries| - 1], stream)
         + if entries[|entries| - 1].stream == stream then [entries[|entries| - 1].message] else []
  }

  lemma {:induction false} MessagesSplit(a: seq<Entry>, b: seq<Entry>, stream: Stream)
    ensures MessagesOf(a + b, stream) == MessagesOf(a, stream) + MessagesOf(b, stream)
    decreases |b|
  {
    if b == [] {
      assert a + b == a;
    } else {
      MessagesSplit(a, b[..|b| - 1], stream);
      assert (a + b)[..|a + b| - 1] == a + b[..|b| - 1];
    }
  }

  lemma {:induction false} MessagesOfEntries(lines: seq<string>, from: Stream, stream: Stream)
    ensures MessagesOf(Entries(from, lines), stream) == if from == stream then lines else []
    decreases |lines|
  {
    if lines != [] {
      MessagesOfEntries(lines[..|lines| - 1], from, stream);
      assert Entries(from, lines)[..|lines| - 1] == Entries(from, lines[..|lines| - 1]);
    }
  }

  /** Which of the pushed entries were cut from written text; the others were pushed as they are. */
  function Cut(ops: seq<Op>): (marks: seq<bool>)
    ensures |marks| == |Exec(ops).pushed|
  {
    if ops == [] then []
    else
      var front, op := ops[..|ops| - 1], ops[|ops| - 1];
      Cut(front) + seq(|Exec(ops).pushed| - |Exec(front).pushed|, i => op.Write?)
  }

  /** The entries with the given mark, in order. */
  function Picked(entries: seq<Entry>, marks: seq<bool>, mark: bool): seq<Entry>
    requires |marks| == |entries|
  {
    if entries == [] then []
    else Picked(entries[..|entries| - 1], marks[..|entries| - 1], mark)
         + if marks[|entries| - 1] == mark then [entries[|entries| - 1]] else []
  }

  /** The entries that were pushed as they are, in order. */
  function Noted(ops: seq<Op>): seq<Entry> {
    if ops == [] then []
    else Noted(ops[..|ops| - 1]) + if ops[|ops| - 1].Note? then [ops[|ops| - 1].entry] else []
  }

  lemma {:induction false} PickedSplits(a: seq<Entry>, b: seq<Entry>, marks: seq<bool>, same: bool, mark: bool)
    requires |marks| == |a| + |b| && forall k :: |a| <= k < |marks| ==> marks[k] == same
    ensures Picked(a + b, marks, mark) == Picked(a, marks[..|a|], mark) + if same == mark then b else []
    decreases |b|
  {
    if b == [] {
      assert a + b == a && marks[..|a|] == marks;
    } else {
      var front := b[..|b| - 1];
      assert (a + b)[..|a + b| - 1] == a + front;
      assert marks[..|a + b| - 1][..|a|] == marks[..|a|];
      PickedSplits(a, front, marks[..|a + b| - 1], same, mark);
      assert b == front + [b[|b| - 1]];
    }
  }

  /** What one operation adds to the marked and to the unmarked entries. */
  lemma OneMoreOp(ops: seq<Op>, more: seq<Entry>, mark: bool)
    requires ops != [] && Exec(ops).pushed == Exec(ops[..|ops| - 1]).pushed + more
    ensures
      var front := ops[..|ops| - 1];
      Picked(Exec(ops).pushed, Cut(ops), mark)
      == Picked(Exec(front).pushed, Cut(front), mark) + if ops[|ops| - 1].Write? == mark then more else []
  {
    var front := ops[..|ops| - 1];
    assert Cut(ops)[..|Exec(front).pushed|] == Cut(front);
    PickedSplits(Exec(front).pushed, more, Cut(ops), ops[|ops| - 1].Write?, mark);
  }

  function Buffer(s: State, stream: Stream): string {
    if stream == Stdout then s.stdout else s.stderr
  }

  /** The stream a write ends up on. */
  function Target(to: Stream): Stream {
    if to == Stdout then Stdout else Stderr
  }

  /** The entries an operation pushes. */
  function Added(s: State, op: Op): (more: seq<Entry>)
    ensures Apply(s, op).pushed == s.pushed + more
  {
    match op
    case Note(entry) => [entry]
    case Write(to, text) => Entries(Target(to), Lines(Buffer(s, to) + text))
  }

  /** The other entries are the ones pushed as they are. */
  lemma {:induction false} NotesAreKept(ops: seq<Op>)
    ensures Picked(Exec(ops).pushed, Cut(ops), false) == Noted(ops)
    decreases |ops|
  {
    if ops != [] {
      var front, op := ops[..|ops| - 1], ops[|ops| - 1];
      NotesAreKept(front);
      OneMoreOp(ops, Added(Exec(front), op), false);
    }
  }

  /** One operation and one stream: `cut` is what was cut from the stream before. */
  lemma OneMoreChunk(s: State, op: Op, stream: Stream, cut: seq<Entry>, written: string)
    requires stream != System
    requires MessagesOf(cut, stream) == Lines(written) && Buffer(s, stream) == Rest(written)
    ensures
      var all := cut + if op.Write? then Added(s, op) else [];
      var text := written + if WritesTo(op, stream) then op.text else [];
      MessagesOf(all, stream) == Lines(text) && Buffer(Apply(s, op), stream) == Rest(text)
  {
    if op.Note? {
      assert cut + [] == cut && written + [] == written;
    } else {
      var from, buffer := Target(op.stream), Buffer(s, op.stream);
      MessagesSplit(cut, Added(s, op), stream);
      MessagesOfEntries(Lines(buffer + op.text), from, stream);
      if from == stream {
        ChunksJoin(written, op.text);
      } else {
        assert written + [] == written;
      }
    }
  }

  /** Chunking does not matter: after any interleaving of writes and other entries, of the same
      stream or not, the lines cut from a stream and what is left over are those of everything
      written to it at once; and the entries that were not cut are those pushed as they are. */
  lemma {:induction false} ChunkingDoesNotMatter(ops: seq<Op>, stream: Stream)
    requires stream != System
    ensures
      var s := Exec(ops);
      && MessagesOf(Picked(s.pushed, Cut(ops), true), stream) == Lines(Written(ops, stream))
      && Buffer(s, stream) == Rest(Written(ops, stream))
      && Picked(s.pushed, Cut(ops), false) == Noted(ops)
    decreases |ops|
  {
    NotesAreKept(ops);
    if ops != [] {
      var front, op := ops[..|ops| - 1], ops[|ops| - 1];
      ChunkingDoesNotMatter(front, stream);
      OneMoreOp(ops, Added(Exec(front), op), true);
      OneMoreChunk(Exec(front), op, stream, Picked(Exec(front).pushed, Cut(front), true), Written(front, stream));
    }
  }

  // ---------- the ring buffer ----------

  /** The entries of a text's lines, from its first line on. */
  lemma OneMoreLine(stream: Stream, text: string)
    requires '\n' in text
    ensures
      var line, tail := text[..FirstNewline(text)], text[FirstNewline(text) + 1..];
      Entries(stream, Lines(text)) == [Entry(stream, TrimCr(line))] + Entries(stream, Lines(tail)) && Rest(text) == Rest(tail)
  {
    var line, tail := text[..FirstNewline(text)], text[FirstNewline(text) + 1..];
    assert RawLines(text) == [line] + RawLines(tail);
    TrimmedSplits([line], RawLines(tail));
    assert Trimmed([line]) == [TrimCr(line)];
    EntriesSplit(stream, [TrimCr(line)], Lines(tail));
    assert Entries(stream, [TrimCr(line)]) == [Entry(stream, TrimCr(line))];
  }

  lemma EntriesSplit(stream: Stream, a: seq<string>, b: seq<string>)
    ensures Entries(stream, a + b) == Entries(stream, a) + Entries(stream, b)
  {}

  lemma AssocEntries(x: seq<Entry>, y: seq<Entry>, z: seq<Entry>)
    ensures (x + y) + z == x + (y + z)
  {}

  /** The last `n` elements, or all of them. */
  function Last<T>(s: seq<T>, n: nat): seq<T> {
    if |s| <= n then s else s[|s| - n..]
  }

  class OutputInner {
    const maxEntries: nat
    var stdoutBuf: string
    var stderrBuf: string
    var entries: seq<Entry>
    ghost var pushed: seq<Entry>

    ghost function View(): State
      reads this
    {
      State(stdoutBuf, stderrBuf, pushed)
    }

    function Capacity(): nat {
      if maxEntries == 0 then 1 else maxEntries
    }

    /** What is kept is exactly the last entries pushed; a limit of zero still keeps one. */
    ghost predicate Valid()
      reads this
    {
      entries == Last(pushed, Capacity())
    }

    constructor (maxEntries: nat)
      ensures this.maxEntries == maxEntries && Valid() && View() == State([], [], [])
    {
      this.maxEntries := maxEntries;
      stdoutBuf, stderrBuf, entries, pushed := [], [], [], [];
    }

    method PushEntry(entry: Entry)
      requires Valid()
      modifies this`entries, this`pushed
      ensures Valid() && pushed == old(pushed) + [entry]
      ensures |entries| == (if |pushed| <= maxEntries then |pushed| else if maxEntries == 0 then 1 else maxEntries)
      ensures entries == pushed[|pushed| - |entries|..]
    {
      if |entries| >= maxEntries {
        entries := if entries == [] then [] else entries[1..];
      }
      entries := entries + [entry];
      pushed := pushed + [entry];
    }

    method FindNewline(text: string) returns (found: Option<nat>)
      ensures found.None? <==> '\n' !in text
      ensures found.Some? ==> found.value == FirstNewline(text)
    {
      for k := 0 to |text|
        invariant '\n' !in text[..k]
      {
        if text[k] == '\n' {
          CutAtFirst(text, k);
          FirstIsFirst(text[..k], text[k + 1..]);
          return Some(k);
        }
      }
      return None;
    }

    method TrimLine(line: string) returns (r: string)
      ensures r == TrimCr(line)
    {
      r := line;
      while r != [] && r[|r| - 1] == '\r'
        invariant TrimCr(r) == TrimCr(line)
      {
        r := r[..|r| - 1];
      }
    }

    method PushStdout(text: string)
      requires Valid()
      modifies this
      ensures Valid() && View() == Apply(old(View()), Write(Stdout, text))
    {
      stdoutBuf := stdoutBuf + text;
      ghost var entriesOfAll, restOfAll := Entries(Stdout, Lines(stdoutBuf)), Rest(stdoutBuf);
      while true
        invariant Valid() && stderrBuf == old(stderrBuf)
        invariant pushed + Entries(Stdout, Lines(stdoutBuf)) == old(pushed) + entriesOfAll
        invariant Rest(stdoutBuf) == restOfAll
        decreases |stdoutBuf|
      {
        var k := FindNewline(stdoutBuf);
        if k.None? {
          break;
        }
        OneMoreLine(Stdout, stdoutBuf);
        var line := TrimLine(stdoutBuf[..k.value]);
        stdoutBuf := stdoutBuf[k.value + 1..];
        AssocEntries(pushed, [Entry(Stdout, line)], Entries(Stdout, Lines(stdoutBuf)));
        PushEntry(Entry(Stdout, line));
      }
      assert pushed + [] == pushed;
    }

    method PushStderr(text: string)
      requires Valid()
      modifies this
      ensures Valid() && View() == Apply(old(View()), Write(Stderr, text))
    {
      stderrBuf := stderrBuf + text;
      ghost var entriesOfAll, restOfAll := Entries(Stderr, Lines(stderrBuf)), Rest(stderrBuf);
      while true
        invariant Valid() && stdoutBuf == old(stdoutBuf)
        invariant pushed + Entries(Stderr, Lines(stderrBuf)) == old(pushed) + entriesOfAll
        invariant Rest(stderrBuf) == restOfAll
        decreases |stderrBuf|
      {
        var k := FindNewline(stderrBuf);
        if k.None? {
          break;
        }
        OneMoreLine(Stderr, stderrBuf);
        var line := TrimLine(stderrBuf[..k.value]);
        stderrBuf := stderrBuf[k.value + 1..];
        AssocEntries(pushed, [Entry(Stderr, line)], Entries(Stderr, Lines(stderrBuf)));
        PushEntry(Entry(Stderr, line));
      }
      assert pushed + [] == pushed;
    }

    /** The kept entries, then each stream's unfinished line. */
    method AllEntries() returns (r: seq<Entry>)
      requires Valid()
      ensures r == Last(pushed, Capacity())
                   + (if stdoutBuf == [] then [] else [Entry(Stdout, stdoutBuf)])
                   + (if stderrBuf == [] then [] else [Entry(Stderr, stderrBuf)])
    {
      r := entries;
      if stdoutBuf != [] {
        r := r + [Entry(Stdout, stdoutBuf)];
      }
      if stderrBuf != [] {
        r := r + [Entry(Stderr, stderrBuf)];
      }
    }
  }
}
