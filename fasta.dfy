/** FASTA text: `parseFasta` (script.js:213-236), the 80-column line
    wrapping of `exportFasta` (script.js:1380-1397), and the round trip
    between the two: reading back an exported file gives every sequence
    under its renamed header. */
module Fasta {
  import opened Wrappers
  import opened JsArrays

  /** The characters `String.prototype.trim` strips and `\s` matches:
      the ECMAScript WhiteSpace and LineTerminator code points. */
  predicate IsSpace(c: char) {
    c == '\t' || c == '\n' || c == '\U{0B}' || c == '\U{0C}' || c == '\r' || c == ' '
    || c == '\U{A0}' || c == '\U{1680}' || ('\U{2000}' <= c <= '\U{200A}')
    || c == '\U{2028}' || c == '\U{2029}' || c == '\U{202F}' || c == '\U{205F}'
    || c == '\U{3000}' || c == '\U{FEFF}'
  }

  predicate NoSpace(s: string) {
    forall k :: 0 <= k < |s| ==> !IsSpace(s[k])
  }

  /** Leading white space removed. */
  function TrimStart(s: string): (r: string)
    ensures |r| <= |s| && r == s[|s| - |r|..]
    ensures r == [] || !IsSpace(r[0])
    ensures forall k :: 0 <= k < |s| - |r| ==> IsSpace(s[k])
  {
    if |s| > 0 && IsSpace(s[0]) then TrimStart(s[1..]) else s
  }

  /** Trailing white space removed. */
  function TrimEnd(s: string): (r: string)
    ensures |r| <= |s| && r == s[..|r|]
    ensures r == [] || !IsSpace(r[|r| - 1])
    ensures forall k :: |r| <= k < |s| ==> IsSpace(s[k])
  {
    if |s| > 0 && IsSpace(s[|s| - 1]) then TrimEnd(s[..|s| - 1]) else s
  }

  /** `trim`. */
  function Trim(s: string): string {
    TrimEnd(TrimStart(s))
  }

  /** A string that starts with a visible character keeps it as its first
      character after trimming. */
  lemma TrimKeepsFirst(s: string)
    requires |s| > 0 && !IsSpace(s[0])
    ensures |Trim(s)| > 0 && Trim(s)[0] == s[0]
  {
    assert TrimStart(s) == s;
  }

  /** A string without white space at either end is its own trim. */
  lemma TrimIdle(s: string)
    requires |s| > 0 && !IsSpace(s[0]) && !IsSpace(s[|s| - 1])
    ensures Trim(s) == s
  {
    assert TrimStart(s) == s;
  }

  /** `split(/\s+/)[0]`: the text up to the first white space (empty when
      the text starts with white space). */
  function FirstWord(s: string): (r: string)
    ensures |r| <= |s| && r == s[..|r|]
    ensures NoSpace(r)
    ensures |r| < |s| ==> IsSpace(s[|r|])
  {
    if |s| == 0 || IsSpace(s[0]) then "" else [s[0]] + FirstWord(s[1..])
  }

  /** `split('\n')`: the pieces between the line feeds, at least one. */
  function Lines(s: string): (r: seq<string>)
    ensures |r| >= 1
    ensures forall k :: 0 <= k < |r| ==> '\n' !in r[k]
    ensures Join(r) == s
  {
    if s == [] then [""]
    else
      var rest := Lines(s[1..]);
      if s[0] == '\n' then [""] + rest
      else
        assert Join(rest) == rest[0] + (if |rest| == 1 then "" else "\n" + Join(rest[1..]));
        [[s[0]] + rest[0]] + rest[1..]
  }

  /** `join('\n')`. */
  function Join(lines: seq<string>): string {
    if lines == [] then ""
    else if |lines| == 1 then lines[0]
    else lines[0] + "\n" + Join(lines[1..])
  }

  /** Splitting undoes joining when no piece holds a line feed. */
  lemma {:induction false} LinesOfJoin(lines: seq<string>)
    requires |lines| >= 1
    requires forall k :: 0 <= k < |lines| ==> '\n' !in lines[k]
    ensures Lines(Join(lines)) == lines
  {
    if |lines| == 1 {
      LinesOfLine(lines[0]);
    } else {
      LinesOfJoin(lines[1..]);
      LinesOfLineThen(lines[0], Join(lines[1..]));
    }
  }

  lemma {:induction false} LinesOfLine(line: string)
    requires '\n' !in line
    ensures Lines(line) == [line]
  {
    if line != [] {
      assert '\n' !in line[1..] by {
        forall k | 0 <= k < |line[1..]| ensures line[1..][k] != '\n' {
          assert line[1..][k] == line[k + 1];
        }
      }
      LinesOfLine(line[1..]);
      assert [line[0]] + line[1..] == line;
    }
  }

  lemma {:induction false} LinesOfLineThen(line: string, rest: string)
    requires '\n' !in line
    ensures Lines(line + "\n" + rest) == [line] + Lines(rest)
  {
    var s := line + "\n" + rest;
    if line == [] {
      assert s == ['\n'] + rest;
      assert s[1..] == rest;
    } else {
      assert '\n' !in line[1..] by {
        forall k | 0 <= k < |line[1..]| ensures line[1..][k] != '\n' {
          assert line[1..][k] == line[k + 1];
        }
      }
      assert s[1..] == line[1..] + "\n" + rest;
      var tail := Lines(s[1..]);
      assert tail == [line[1..]] + Lines(rest) by {
        LinesOfLineThen(line[1..], rest);
      }
      assert s[0] == line[0] && s[0] != '\n';
      assert Lines(s) == [[s[0]] + tail[0]] + tail[1..];
      assert [s[0]] + tail[0] == line by {
        assert [line[0]] + line[1..] == line;
      }
      assert tail[1..] == Lines(rest);
    }
  }

  /** `join('')`. */
  function Concat(parts: seq<string>): string {
    if parts == [] then "" else parts[0] + Concat(parts[1..])
  }

  lemma {:induction false} ConcatAppend(a: seq<string>, b: seq<string>)
    ensures Concat(a + b) == Concat(a) + Concat(b)
  {
    if a != [] {
      ConcatAppend(a[1..], b);
      assert (a + b)[0] == a[0] && (a + b)[1..] == a[1..] + b;
      calc {
        Concat(a + b);
        a[0] + Concat(a[1..] + b);
        a[0] + (Concat(a[1..]) + Concat(b));
        (a[0] + Concat(a[1..])) + Concat(b);
      }
    } else {
      assert a + b == b;
    }
  }

  /** The parser's variables: the current header (`null` before the
      first one), the sequence lines read under it, and the finished
      records. */
  datatype ParseState = ParseState(header: Option<string>, lines: seq<string>, out: map<string, string>)

  const Start := ParseState(None, [], map[])

  /** A trimmed line that opens a record. */
  predicate IsHeader(line: string) {
    |line| > 0 && line[0] == '>'
  }

  /** Store the current record, unless there is no header or it is empty
      (`if (currentHeader)`); a repeated header replaces the earlier
      record. */
  function Flush(st: ParseState): map<string, string> {
    if st.header.Some? && st.header.value != "" then st.out[st.header.value := Concat(st.lines)]
    else st.out
  }

  /** Records are stored only under non-empty header words, and the
      current header has no white space in it. */
  predicate Named(st: ParseState) {
    && (st.header.Some? ==> NoSpace(st.header.value))
    && forall h :: h in st.out ==> h != "" && NoSpace(h)
  }

  /** One line of the `forEach`. */
  function Step(st: ParseState, raw: string): ParseState {
    var line := Trim(raw);
    if IsHeader(line) then ParseState(Some(FirstWord(line[1..])), [], Flush(st))
    else if line != "" then st.(lines := st.lines + [line])
    else st
  }

  function Run(st: ParseState, lines: seq<string>): ParseState
    decreases lines
  {
    if lines == [] then st else Run(Step(st, lines[0]), lines[1..])
  }

  /** One line keeps the state well named: a header line takes its first
      word and stores the previous record only under a non-empty name. */
  lemma StepNamed(st: ParseState, raw: string)
    requires Named(st)
    ensures Named(Step(st, raw))
  {
  }

  /** Reading any lines keeps the state well named. */
  lemma {:induction false} RunNamed(st: ParseState, lines: seq<string>)
    requires Named(st)
    ensures Named(Run(st, lines))
    decreases lines
  {
    if lines != [] {
      StepNamed(st, lines[0]);
      RunNamed(Step(st, lines[0]), lines[1..]);
    }
  }

  /** What `parseFasta` returns for a text. */
  function Parse(content: string): (r: map<string, string>)
    ensures forall h :: h in r ==> h != "" && NoSpace(h)
  {
    RunNamed(Start, Lines(content));
    Flush(Run(Start, Lines(content)))
  }

  /** `parseFasta`, one line at a time. */
  method ParseFasta(content: string) returns (sequences: map<string, string>)
    ensures sequences == Parse(content)
  {
    var lines := Lines(content);
    sequences := map[];
    var currentHeader: Option<string> := None;
    var currentSequence: seq<string> := [];
    var i := 0;
    while i < |lines|
      invariant 0 <= i <= |lines|
      invariant Run(ParseState(currentHeader, currentSequence, sequences), lines[i..]) == Run(Start, lines)
    {
      ghost var st := ParseState(currentHeader, currentSequence, sequences);
      assert Run(st, lines[i..]) == Run(Step(st, lines[i]), lines[i + 1..]) by {
        assert lines[i..][1..] == lines[i + 1..];
      }
      var line := Trim(lines[i]);
      if IsHeader(line) {
        if currentHeader.Some? && currentHeader.value != "" {
          sequences := sequences[currentHeader.value := Concat(currentSequence)];
        }
        currentHeader := Some(FirstWord(line[1..]));
        currentSequence := [];
      } else if line != "" {
        currentSequence := currentSequence + [line];
      }
      assert ParseState(currentHeader, currentSequence, sequences) == Step(st, lines[i]);
      i := i + 1;
    }
    if currentHeader.Some? && currentHeader.value != "" {
      sequences := sequences[currentHeader.value := Concat(currentSequence)];
    }
  }

  lemma {:induction false} RunAppend(st: ParseState, a: seq<string>, b: seq<string>)
    ensures Run(st, a + b) == Run(Run(st, a), b)
    decreases a
  {
    if a != [] {
      assert (a + b)[0] == a[0] && (a + b)[1..] == a[1..] + b;
      RunAppend(Step(st, a[0]), a[1..], b);
      assert Run(st, a + b) == Run(Step(st, a[0]), a[1..] + b);
    } else {
      assert a + b == b;
    }
  }

  /** Lines before the first header are read but thrown away. */
  lemma {:induction false} PreambleDropped(st: ParseState, pre: seq<string>)
    requires st.header.None?
    requires forall k :: 0 <= k < |pre| ==> !IsHeader(Trim(pre[k]))
    ensures Run(st, pre).header.None? && Run(st, pre).out == st.out
    decreases pre
  {
    if pre != [] {
      PreambleDropped(Step(st, pre[0]), pre[1..]);
    }
  }

  /** A character that an exported sequence line may hold. */
  predicate IsResidue(c: char) {
    !IsSpace(c) && c != '>'
  }

  predicate Residues(s: string) {
    forall k :: 0 <= k < |s| ==> IsResidue(s[k])
  }

  /** Lines that read back as sequence lines, unchanged. */
  predicate PlainLines(lines: seq<string>) {
    lines == [] || (|lines[0]| >= 1 && Residues(lines[0]) && PlainLines(lines[1..]))
  }

  lemma {:induction false} PlainLinesHaveNoLineFeed(lines: seq<string>)
    requires PlainLines(lines)
    ensures forall k :: 0 <= k < |lines| ==> '\n' !in lines[k]
  {
    if lines != [] {
      PlainLinesHaveNoLineFeed(lines[1..]);
      assert forall k :: 1 <= k < |lines| ==> lines[k] == lines[1..][k - 1];
      assert IsResidue('\n') == false;
    }
  }

  /** The chunking of `exportFasta`: `seq.slice(i, i + 80)` for
      `i = 0, 80, 160, ...`. The chunks spell the sequence, each holds 1
      to 80 characters, and all but the last hold exactly 80. */
  function Wrap(s: string): (r: seq<string>)
    ensures Concat(r) == s
    ensures forall c :: 0 <= c < |r| ==> 1 <= |r[c]| <= 80
    ensures forall c :: 0 <= c < |r| - 1 ==> |r[c]| == 80
    ensures Residues(s) ==> PlainLines(r)
    decreases |s|
  {
    if s == [] then []
    else
      var n := if |s| < 80 then |s| else 80;
      var rest := Wrap(s[n..]);
      assert s[..n] + s[n..] == s;
      [s[..n]] + rest
  }

  /** Wrapping is the only way to cut a sequence into lines of 80 with a
      shorter, non-empty last line. */
  lemma {:induction false} WrapUnique(s: string, chunks: seq<string>)
    requires Concat(chunks) == s
    requires forall c :: 0 <= c < |chunks| ==> 1 <= |chunks[c]| <= 80
    requires forall c :: 0 <= c < |chunks| - 1 ==> |chunks[c]| == 80
    ensures chunks == Wrap(s)
    decreases |s|
  {
    if chunks != [] {
      var n := if |s| < 80 then |s| else 80;
      assert s == chunks[0] + Concat(chunks[1..]);
      if |chunks| == 1 {
        assert Concat(chunks[1..]) == "";
        assert chunks[0] == s;
      } else {
        assert |chunks[0]| == 80;
        assert |Concat(chunks[1..])| >= |chunks[1]| by {
          assert Concat(chunks[1..]) == chunks[1] + Concat(chunks[2..]);
        }
        assert chunks[0] == s[..n];
      }
      assert Concat(chunks[1..]) == s[n..];
      WrapUnique(s[n..], chunks[1..]);
    }
  }

  /** The export loop: `for (let i = 0; i < seq.length; i += 80)
      output.push(seq.slice(i, i + 80))`. */
  method WrapSequence(s: string) returns (chunks: seq<string>)
    ensures chunks == Wrap(s)
  {
    chunks := [];
    var i := 0;
    while i < |s|
      invariant 0 <= i
      invariant i < |s| ==> chunks + Wrap(s[i..]) == Wrap(s)
      invariant i >= |s| ==> chunks == Wrap(s)
      decreases |s| - i
    {
      var chunk := Slice(s, i, i + 80);
      WrapStep(s, i, chunks);
      chunks := chunks + [chunk];
      i := i + 80;
    }
  }

  lemma SeqAssoc<T>(a: seq<T>, b: seq<T>, c: seq<T>)
    ensures a + (b + c) == a + b + c
  {
  }

  /** The loop invariant of `WrapSequence` survives one turn. */
  lemma WrapStep(s: string, i: int, chunks: seq<string>)
    requires 0 <= i < |s| && chunks + Wrap(s[i..]) == Wrap(s)
    ensures var next := chunks + [Slice(s, i, i + 80)];
            (i + 80 < |s| ==> next + Wrap(s[i + 80..]) == Wrap(s))
            && (i + 80 >= |s| ==> next == Wrap(s))
  {
    var n := if |s| - i < 80 then |s| - i else 80;
    var chunk := Slice(s, i, i + 80);
    var rest := Wrap(s[i + n..]);
    assert Wrap(s[i..]) == [chunk] + rest && (i + n == |s| <==> i + 80 >= |s|) by {
      WrapFrom(s, i);
    }
    assert chunks + [chunk] + rest == Wrap(s) by {
      SeqAssoc(chunks, [chunk], rest);
    }
    if i + 80 >= |s| {
      assert rest == [] by {
        assert s[i + n..] == [];
      }
      assert chunks + [chunk] + rest == chunks + [chunk];
    }
  }

  /** One turn of the export loop: the chunk at `i` is the next line of
      the wrapping of the rest. */
  lemma WrapFrom(s: string, i: int)
    requires 0 <= i < |s|
    ensures var n := if |s| - i < 80 then |s| - i else 80;
            Wrap(s[i..]) == [Slice(s, i, i + 80)] + Wrap(s[i + n..])
            && (i + n == |s| <==> i + 80 >= |s|)
  {
    var n := if |s| - i < 80 then |s| - i else 80;
    SliceClamped(s, i, i + 80);
    assert Slice(s, i, i + 80) == s[i..][..n];
    assert s[i..][n..] == s[i + n..];
  }

  /** The suffix `exportFasta` gives every header. */
  function Renamed(header: string): string {
    header + "_reassembled"
  }

  /** One exported record: the renamed header line, then the wrapped
      sequence. */
  function RecordLines(header: string, sequence: string): seq<string> {
    [">" + Renamed(header)] + Wrap(sequence)
  }

  function Body(entries: seq<(string, string)>): seq<string> {
    if entries == [] then [] else RecordLines(entries[0].0, entries[0].1) + Body(entries[1..])
  }

  /** The two comment lines of the export. */
  function Preamble(score: string): seq<string> {
    ["; Reassembled genome", "; Score: " + score]
  }

  /** The lines of the exported file; `score` is the score as
      `toFixed(2)` prints it. */
  function ExportLines(entries: seq<(string, string)>, score: string): seq<string> {
    Preamble(score) + Body(entries)
  }

  /** What reading the export back should give: each sequence under its
      renamed header, a later duplicate replacing an earlier one. */
  function Exported(out: map<string, string>, entries: seq<(string, string)>): map<string, string>
    decreases entries
  {
    if entries == [] then out else Exported(out[Renamed(entries[0].0) := entries[0].1], entries[1..])
  }

  /** Headers and sequences that survive the trip: headers without white
      space (as `parseFasta` produces them), sequences of residues. */
  predicate Exportable(entries: seq<(string, string)>) {
    entries == [] || (NoSpace(entries[0].0) && Residues(entries[0].1) && Exportable(entries[1..]))
  }

  lemma ReadRecord(st: ParseState, header: string, sequence: string)
    requires NoSpace(header) && Residues(sequence)
    ensures Run(st, RecordLines(header, sequence)) == ParseState(Some(Renamed(header)), Wrap(sequence), Flush(st))
  {
    var lines := RecordLines(header, sequence);
    var after := ParseState(Some(Renamed(header)), [], Flush(st));
    StepHeader(st, header);
    assert lines[0] == ">" + Renamed(header) && lines[1..] == Wrap(sequence);
    assert Run(st, lines) == Run(after, Wrap(sequence));
    ReadChunks(after, Wrap(sequence));
    assert after.lines + Wrap(sequence) == Wrap(sequence);
  }

  /** An exported header line opens a record under the renamed header. */
  lemma StepHeader(st: ParseState, header: string)
    requires NoSpace(header)
    ensures Step(st, ">" + Renamed(header)) == ParseState(Some(Renamed(header)), [], Flush(st))
  {
    var key := Renamed(header);
    var line := ">" + key;
    assert NoSpace(key) by {
      forall k | 0 <= k < |key| ensures !IsSpace(key[k]) {
        if k < |header| {
          assert key[k] == header[k];
        } else {
          assert key[k] == "_reassembled"[k - |header|];
        }
      }
    }
    assert line[|line| - 1] == key[|key| - 1];
    TrimIdle(line);
    assert line[1..] == key;
    FirstWordOfWord(key);
  }

  /** A text without white space is its own first word. */
  lemma {:induction false} FirstWordOfWord(s: string)
    requires NoSpace(s)
    ensures FirstWord(s) == s
  {
    if s != [] {
      assert NoSpace(s[1..]) by {
        forall k | 0 <= k < |s[1..]| ensures !IsSpace(s[1..][k]) {
          assert s[1..][k] == s[k + 1];
        }
      }
      FirstWordOfWord(s[1..]);
      assert [s[0]] + s[1..] == s;
    }
  }

  lemma {:induction false} ReadChunks(st: ParseState, chunks: seq<string>)
    requires PlainLines(chunks)
    ensures Run(st, chunks) == st.(lines := st.lines + chunks)
    decreases chunks
  {
    if chunks != [] {
      var next := st.(lines := st.lines + [chunks[0]]);
      assert Run(st, chunks) == Run(next, chunks[1..]) by {
        StepPlain(st, chunks);
      }
      assert Run(next, chunks[1..]) == next.(lines := next.lines + chunks[1..]) by {
        ReadChunks(next, chunks[1..]);
      }
      assert next.lines + chunks[1..] == st.lines + chunks by {
        assert chunks == [chunks[0]] + chunks[1..];
        SeqAssoc(st.lines, [chunks[0]], chunks[1..]);
      }
    } else {
      assert st.lines + chunks == st.lines;
    }
  }

  /** A plain line is added to the current record as it is. */
  lemma StepPlain(st: ParseState, lines: seq<string>)
    requires lines != [] && PlainLines(lines)
    ensures Step(st, lines[0]) == st.(lines := st.lines + [lines[0]])
  {
    var line := lines[0];
    assert IsResidue(line[0]) && IsResidue(line[|line| - 1]);
    TrimIdle(line);
  }

  lemma {:induction false} ReadBody(st: ParseState, entries: seq<(string, string)>)
    requires Exportable(entries)
    ensures Flush(Run(st, Body(entries))) == Exported(Flush(st), entries)
    decreases entries
  {
    if entries != [] {
      var e := entries[0];
      var next := ParseState(Some(Renamed(e.0)), Wrap(e.1), Flush(st));
      assert Run(st, Body(entries)) == Run(next, Body(entries[1..])) by {
        assert Body(entries) == RecordLines(e.0, e.1) + Body(entries[1..]);
        RunAppend(st, RecordLines(e.0, e.1), Body(entries[1..]));
        ReadRecord(st, e.0, e.1);
      }
      assert Flush(next) == Flush(st)[Renamed(e.0) := e.1];
      assert Flush(Run(next, Body(entries[1..]))) == Exported(Flush(next), entries[1..]) by {
        ReadBody(next, entries[1..]);
      }
    }
  }

  lemma {:induction false} BodyLineFeeds(entries: seq<(string, string)>)
    requires Exportable(entries)
    ensures forall k :: 0 <= k < |Body(entries)| ==> '\n' !in Body(entries)[k]
  {
    if entries != [] {
      var e := entries[0];
      var header := ">" + Renamed(e.0);
      assert '\n' !in header by {
        assert NoSpace(Renamed(e.0));
        assert forall k :: 1 <= k < |header| ==> header[k] == Renamed(e.0)[k - 1];
      }
      PlainLinesHaveNoLineFeed(Wrap(e.1));
      BodyLineFeeds(entries[1..]);
      var rest := Body(entries[1..]);
      assert Body(entries) == [header] + Wrap(e.1) + rest;
      forall k | 0 <= k < |Body(entries)| ensures '\n' !in Body(entries)[k] {
        if k == 0 {
        } else if k <= |Wrap(e.1)| {
          assert Body(entries)[k] == Wrap(e.1)[k - 1];
        } else {
          assert Body(entries)[k] == rest[k - 1 - |Wrap(e.1)|];
        }
      }
    }
  }

  lemma NoLineFeedAppend(a: seq<string>, b: seq<string>)
    requires forall k :: 0 <= k < |a| ==> '\n' !in a[k]
    requires forall k :: 0 <= k < |b| ==> '\n' !in b[k]
    ensures forall k :: 0 <= k < |a + b| ==> '\n' !in (a + b)[k]
  {
    forall k | 0 <= k < |a + b| ensures '\n' !in (a + b)[k] {
      if k >= |a| {
        assert (a + b)[k] == b[k - |a|];
      }
    }
  }

  /** Comment lines before the first header leave the parser with no
      header and nothing stored. */
  lemma {:induction false} CommentsDropped(lines: seq<string>)
    requires forall k :: 0 <= k < |lines| ==> |lines[k]| > 0 && lines[k][0] == ';'
    ensures Run(Start, lines).header.None? && Run(Start, lines).out == map[]
  {
    forall k | 0 <= k < |lines| ensures !IsHeader(Trim(lines[k])) {
      TrimKeepsFirst(lines[k]);
    }
    PreambleDropped(Start, lines);
  }

  /** Comment lines followed by exported records read back as the
      records. */
  lemma ReadBack(comments: seq<string>, entries: seq<(string, string)>)
    requires |comments| >= 1
    requires forall k :: 0 <= k < |comments| ==> |comments[k]| > 0 && comments[k][0] == ';' && '\n' !in comments[k]
    requires Exportable(entries)
    ensures Parse(Join(comments + Body(entries))) == Exported(map[], entries)
  {
    var body := Body(entries);
    var lines := comments + body;
    CommentsDropped(comments);
    BodyLineFeeds(entries);
    NoLineFeedAppend(comments, body);
    LinesOfJoin(lines);
    RunAppend(Start, comments, body);
    ReadBody(Run(Start, comments), entries);
  }

  /** Reading back the file `exportFasta` writes gives every exported
      sequence under its renamed header: the two comment lines come
      before any header and are dropped, and the 80-column lines of each
      record are joined again. */
  lemma ExportRoundTrip(entries: seq<(string, string)>, score: string)
    requires Exportable(entries) && '\n' !in score
    ensures Parse(Join(ExportLines(entries, score))) == Exported(map[], entries)
  {
    var pre := Preamble(score);
    assert '\n' !in pre[0] && '\n' !in pre[1];
    ReadBack(pre, entries);
  }
}
