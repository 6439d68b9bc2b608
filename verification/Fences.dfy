/** The license sections of the third-party notices: fence widths, the emitted Markdown, and its reading under the
    fenced-code-block rules of CommonMark 0.31.2, section 4.5. */
module Fences {
  import opened Text

  // ---------------------------------------------------------------- lines

  predicate IsLineEnding(c: char) {
    c == '\n' || c == '\r'
  }

  /** The length of the first line with its ending: a line feed, a carriage return, or the pair. */
  function LineLength(s: string): (n: nat)
    ensures n <= |s| && (s != "" ==> n > 0)
  {
    if s == "" then 0
    else if s[0] == '\n' then 1
    else if s[0] == '\r' then (if |s| > 1 && s[1] == '\n' then 2 else 1)
    else 1 + LineLength(s[1..])
  }

  function Lines(s: string): seq<string>
    decreases |s|
  {
    if s == "" then [] else [s[..LineLength(s)]] + Lines(s[LineLength(s)..])
  }

  function Concat(parts: seq<string>): string {
    if parts == [] then "" else Concat(parts[..|parts| - 1]) + parts[|parts| - 1]
  }

  lemma {:induction false} ConcatAppend(a: seq<string>, b: seq<string>)
    ensures Concat(a + b) == Concat(a) + Concat(b)
  {
    if b == [] {
      assert a + b == a;
    } else {
      assert (a + b)[..|a + b| - 1] == a + b[..|b| - 1];
      ConcatAppend(a, b[..|b| - 1]);
    }
  }

  lemma {:induction false} LinesConcat(s: string)
    ensures Concat(Lines(s)) == s
    decreases |s|
  {
    if s != "" {
      var n := LineLength(s);
      LinesConcat(s[n..]);
      ConcatAppend([s[..n]], Lines(s[n..]));
      assert Concat([s[..n]]) == "" + s[..n];
      assert s == s[..n] + s[n..];
    }
  }

  lemma {:induction false} LineLengthLocal(a: string, b: string)
    ensures LineLength(a + "\n" + b) == LineLength(a + "\n") <= |a| + 1
  {
    var s, t := a + "\n" + b, a + "\n";
    if a != "" {
      assert s[1..] == a[1..] + "\n" + b && t[1..] == a[1..] + "\n";
      LineLengthLocal(a[1..], b);
    }
  }

  lemma DropWithin(a: string, b: string, n: nat)
    requires n <= |a|
    ensures (a + "\n" + b)[n..] == a[n..] + "\n" + b && (a + "\n")[n..] == a[n..] + "\n"
    ensures (a + "\n" + b)[..n] == (a + "\n")[..n]
  {}

  lemma DropAll(a: string, b: string)
    ensures (a + "\n" + b)[|a| + 1..] == b && (a + "\n")[|a| + 1..] == ""
    ensures (a + "\n" + b)[..|a| + 1] == (a + "\n")[..|a| + 1]
  {}

  /** A line feed always ends a line, so text up to one splits on its own. */
  lemma {:induction false} LinesSplit(a: string, b: string)
    ensures Lines(a + "\n" + b) == Lines(a + "\n") + Lines(b)
    decreases |a|
  {
    var n := LineLength(a + "\n");
    LineLengthLocal(a, b);
    if n == |a| + 1 {
      DropAll(a, b);
    } else {
      DropWithin(a, b, n);
      LinesSplit(a[n..], b);
    }
  }

  predicate IsOneLine(s: string) {
    forall i | 0 <= i < |s| :: !IsLineEnding(s[i])
  }

  lemma {:induction false} OneLineLength(s: string)
    requires IsOneLine(s)
    ensures LineLength(s + "\n") == |s| + 1
  {
    if s != "" {
      assert (s + "\n")[1..] == s[1..] + "\n";
      OneLineLength(s[1..]);
    }
  }

  lemma LinesOfOneLine(s: string)
    requires IsOneLine(s)
    ensures Lines(s + "\n") == [s + "\n"]
  {
    OneLineLength(s);
    assert (s + "\n")[..|s| + 1] == s + "\n" && (s + "\n")[|s| + 1..] == "";
  }

  // ---------------------------------------------------------------- runs of backticks

  function Ticks(n: nat): (s: string)
    ensures |s| == n && forall i | 0 <= i < n :: s[i] == '`'
  {
    if n == 0 then "" else Ticks(n - 1) + "`"
  }

  /** How many times `mark` is repeated at the start. */
  function LeadingRun(s: string, mark: char): (n: nat)
    ensures n <= |s| && forall i | 0 <= i < n :: s[i] == mark
    ensures n < |s| ==> s[n] != mark
  {
    if s != "" && s[0] == mark then 1 + LeadingRun(s[1..], mark) else 0
  }

  predicate TicksAt(s: string, i: nat, w: nat) {
    i + w <= |s| && forall k | i <= k < i + w :: s[k] == '`'
  }

  /** Some stretch of w characters is all backticks. */
  ghost predicate HasTicks(s: string, w: nat) {
    exists i | 0 <= i <= |s| - w :: TicksAt(s, i, w)
  }

  /** The lengths of the maximal runs of backticks, in order: what grep -o prints, line by line. */
  function Runs(s: string): seq<nat>
    decreases |s|
  {
    if s == "" then []
    else if s[0] != '`' then Runs(s[1..])
    else [LeadingRun(s, '`')] + Runs(s[LeadingRun(s, '`')..])
  }

  lemma {:induction false} RunsBoundTicks(s: string, w: nat)
    requires w > 0 && HasTicks(s, w)
    ensures exists r | r in Runs(s) :: r >= w
    decreases |s|
  {
    var i :| 0 <= i <= |s| - w && TicksAt(s, i, w);
    if s[0] != '`' {
      assert s[i] == '`';
      assert TicksAt(s[1..], i - 1, w);
      RunsBoundTicks(s[1..], w);
      assert Runs(s) == Runs(s[1..]);
    } else {
      var n := LeadingRun(s, '`');
      if i + w <= n {
        assert n in Runs(s);
      } else {
        assert s[n] != '`';
        assert i > n;
        assert TicksAt(s[n..], i - n, w);
        RunsBoundTicks(s[n..], w);
        var r :| r in Runs(s[n..]) && r >= w;
        assert r in Runs(s);
      }
    }
  }

  lemma {:induction false} RunsAreTicks(s: string, r: nat)
    requires r in Runs(s)
    ensures HasTicks(s, r)
    decreases |s|
  {
    var n := if s[0] != '`' then 1 else LeadingRun(s, '`');
    if s[0] == '`' && r == n {
      assert TicksAt(s, 0, r);
    } else {
      RunsAreTicks(s[n..], r);
      var i :| 0 <= i <= |s[n..]| - r && TicksAt(s[n..], i, r);
      assert TicksAt(s, i + n, r);
    }
  }

  /** The width is the least one, from three up, of which the file has no run. */
  ghost predicate IsFenceWidth(content: string, w: nat) {
    w >= 3 && !HasTicks(content, w) && (w > 3 ==> HasTicks(content, w - 1))
  }

  function Longest(runs: seq<nat>): nat {
    if runs == [] then 0 else
      var rest := Longest(runs[..|runs| - 1]);
      if runs[|runs| - 1] > rest then runs[|runs| - 1] else rest
  }

  function FenceWidth(content: string): nat {
    var width := Longest(Runs(content)) + 1;
    if width < 3 then 3 else width
  }

  lemma {:induction false} LongestBounds(runs: seq<nat>)
    ensures (forall r | r in runs :: r <= Longest(runs)) && (Longest(runs) == 0 || Longest(runs) in runs)
  {
    if runs != [] {
      LongestBounds(runs[..|runs| - 1]);
      assert forall r :: r in runs <==> r in runs[..|runs| - 1] || r == runs[|runs| - 1];
    }
  }

  /** The width chosen is the least one, from three up, of which the file has no run. */
  lemma WidthIsFence(content: string)
    ensures IsFenceWidth(content, FenceWidth(content))
  {
    var longest, width := Longest(Runs(content)), FenceWidth(content);
    LongestBounds(Runs(content));
    if HasTicks(content, width) {
      RunsBoundTicks(content, width);
      assert false;
    }
    if width > 3 {
      RunsAreTicks(content, longest);
    }
  }

  /** One backtick more than the longest run, and at least three: a running maximum over the runs. */
  method FenceFor(content: string) returns (fence: string)
    ensures fence == Ticks(FenceWidth(content)) && IsFenceWidth(content, |fence|)
  {
    var runs := Runs(content);
    var longest := 0;
    for i := 0 to |runs|
      invariant longest == Longest(runs[..i])
    {
      assert runs[..i + 1][..i] == runs[..i];
      if runs[i] > longest {
        longest := runs[i];
      }
    }
    assert runs[..|runs|] == runs;
    var width := longest + 1;
    if width < 3 {
      width := 3;
    }
    WidthIsFence(content);
    fence := Ticks(width);
  }

  lemma FewerTicks(s: string, v: nat, w: nat)
    requires v <= w && HasTicks(s, w)
    ensures HasTicks(s, v)
  {
    var i :| 0 <= i <= |s| - w && TicksAt(s, i, w);
    assert TicksAt(s, i, v);
  }

  lemma FenceWidthUnique(content: string, v: nat, w: nat)
    requires IsFenceWidth(content, v) && IsFenceWidth(content, w)
    ensures v == w
  {
    if v < w {
      FewerTicks(content, v, w - 1);
    } else if w < v {
      FewerTicks(content, w, v - 1);
    }
  }

  // ---------------------------------------------------------------- reading fenced blocks

  datatype Fence = Fence(mark: char, width: nat, indent: nat)

  /** The line without its ending. */
  function Body(line: string): string {
    if line != "" && IsLineEnding(line[|line| - 1]) then Body(line[..|line| - 1]) else line
  }

  /** An opening fence: at most three spaces, three or more of one mark, and no backtick in a backtick fence's info. */
  function Opening(line: string): Option<Fence> {
    var body := Body(line);
    var indent := LeadingRun(body, ' ');
    var rest := body[indent..];
    if indent > 3 || rest == "" || rest[0] !in "`~" then None
    else
      var width := LeadingRun(rest, rest[0]);
      if width >= 3 && (rest[0] == '`' ==> '`' !in rest[width..]) then Some(Fence(rest[0], width, indent)) else None
  }

  /** A closing fence: at most three spaces, at least as many of the same mark, then only spaces and tabs. */
  predicate Closes(line: string, f: Fence) {
    var body := Body(line);
    var indent := LeadingRun(body, ' ');
    var rest := body[indent..];
    var width := LeadingRun(rest, f.mark);
    indent <= 3 && width >= f.width && forall i | width <= i < |rest| :: rest[i] == ' ' || rest[i] == '\t'
  }

  /** A content line loses as much indentation as the opening fence has. */
  function Deindent(line: string, n: nat): string {
    if n > 0 && line != "" && line[0] == ' ' then Deindent(line[1..], n - 1) else line
  }

  /** The open fence, if any, with the content read so far, the blocks already closed, and the lines outside them. */
  datatype Reader = Reader(open: Option<Fence>, content: string, blocks: seq<string>, outside: seq<string>)

  const START := Reader(None, "", [], [])

  function Feed(r: Reader, line: string): Reader {
    match r.open
    case None =>
      if Opening(line).Some? then Reader(Opening(line), "", r.blocks, r.outside)
      else r.(outside := r.outside + [Body(line)])
    case Some(f) =>
      if Closes(line, f) then Reader(None, "", r.blocks + [r.content], r.outside)
      else Reader(r.open, r.content + Deindent(line, f.indent), r.blocks, r.outside)
  }

  function FeedAll(r: Reader, lines: seq<string>): Reader {
    if lines == [] then r else Feed(FeedAll(r, lines[..|lines| - 1]), lines[|lines| - 1])
  }

  /** The contents of the fenced blocks of a document; one left open runs to the end. */
  function ReadBlocks(document: string): seq<string> {
    var r := FeedAll(START, Lines(document));
    if r.open.Some? then r.blocks + [r.content] else r.blocks
  }

  lemma {:induction false} FeedAppend(r: Reader, a: seq<string>, b: seq<string>)
    ensures FeedAll(r, a + b) == FeedAll(FeedAll(r, a), b)
  {
    if b == [] {
      assert a + b == a;
    } else {
      assert (a + b)[..|a + b| - 1] == a + b[..|b| - 1];
      FeedAppend(r, a, b[..|b| - 1]);
    }
  }

  // ---------------------------------------------------------------- the emitted sections

  datatype File = File(name: string, content: string)

  datatype Row = Row(pkg: string, license: string, module_: string, files: seq<File>)

  /** Index fields and file names come from line-based reads. */
  predicate RowIsLines(row: Row) {
    IsOneLine(row.pkg) && IsOneLine(row.license) && IsOneLine(row.module_)
    && forall i | 0 <= i < |row.files| :: IsOneLine(row.files[i].name)
  }

  function OrElse(s: string, default_: string): string {
    if s == "" then default_ else s
  }

  /** A file's part of its section, in pieces that each end a line. */
  function FileParts(file: File): seq<string> {
    var fence := Ticks(FenceWidth(file.content));
    ["#### " + file.name + "\n", "\n", fence + "text\n", file.content + "\n", fence + "\n", "\n"]
  }

  function FilesParts(files: seq<File>): seq<string> {
    if files == [] then [] else FilesParts(files[..|files| - 1]) + FileParts(files[|files| - 1])
  }

  function HeaderParts(row: Row): seq<string> {
    ["### " + row.pkg + "\n", "\n",
     "* License: " + OrElse(row.license, "Unknown") + "\n",
     "* Module: " + OrElse(row.module_, "unknown") + "\n", "\n"]
  }

  /** The line that stands in place of the files where a row has none; it begins no fence, heading or bullet. */
  type Notice = s: string | IsOneLine(s) && s != "" && s[0] !in " `~#*" witness "None"

  /** A row without a package emits nothing. */
  function RowParts(row: Row, notice: Notice): seq<string> {
    if row.pkg == "" then []
    else HeaderParts(row) + (if row.files == [] then [notice + "\n"] else FilesParts(row.files)) + ["\n"]
  }

  function SectionParts(rows: seq<Row>, notice: Notice): seq<string> {
    if rows == [] then [] else SectionParts(rows[..|rows| - 1], notice) + RowParts(rows[|rows| - 1], notice)
  }

  lemma ConcatSix(parts: seq<string>)
    requires |parts| == 6
    ensures Concat(parts) == parts[0] + parts[1] + parts[2] + parts[3] + parts[4] + parts[5]
  {
    forall n | 0 <= n < 6 ensures Concat(parts[..n + 1]) == Concat(parts[..n]) + parts[n] {
      assert parts[..n + 1][..n] == parts[..n];
    }
    assert parts[..6] == parts && parts[..0] == [];
  }

  method EmitFile(file: File) returns (out: string)
    ensures out == Concat(FileParts(file))
  {
    var fence := FenceFor(file.content);
    out := "#### " + file.name + "\n" + "\n";
    out := out + (fence + "text\n");
    out := out + (file.content + "\n");
    out := out + (fence + "\n");
    out := out + "\n";
    ConcatSix(FileParts(file));
  }

  method EmitFiles(files: seq<File>) returns (out: string)
    ensures out == Concat(FilesParts(files))
  {
    out := "";
    for i := 0 to |files|
      invariant out == Concat(FilesParts(files[..i]))
    {
      var text := EmitFile(files[i]);
      assert files[..i + 1][..i] == files[..i];
      ConcatAppend(FilesParts(files[..i]), FileParts(files[i]));
      out := out + text;
    }
    assert files[..|files|] == files;
  }

  function HeaderText(row: Row): string {
    Concat(HeaderParts(row))
  }

  lemma ConcatRow(header: seq<string>, body: seq<string>)
    ensures Concat(header + body + ["\n"]) == Concat(header) + Concat(body) + "\n"
  {
    ConcatAppend(header + body, ["\n"]);
    ConcatAppend(header, body);
    assert Concat(["\n"]) == "" + "\n";
  }

  method EmitRow(row: Row, notice: Notice) returns (out: string)
    ensures out == Concat(RowParts(row, notice))
  {
    if row.pkg == "" {
      return "";
    }
    var body;
    if row.files == [] {
      body := notice + "\n";
      assert Concat([body]) == "" + body;
    } else {
      body := EmitFiles(row.files);
    }
    ConcatRow(HeaderParts(row), if row.files == [] then [body] else FilesParts(row.files));
    out := HeaderText(row) + body + "\n";
  }

  method EmitSections(rows: seq<Row>, notice: Notice) returns (out: string)
    ensures out == Concat(SectionParts(rows, notice))
  {
    out := "";
    for r := 0 to |rows|
      invariant out == Concat(SectionParts(rows[..r], notice))
    {
      var text := EmitRow(rows[r], notice);
      assert rows[..r + 1][..r] == rows[..r];
      ConcatAppend(SectionParts(rows[..r], notice), RowParts(rows[r], notice));
      out := out + text;
    }
    assert rows[..|rows|] == rows;
  }

  // ---------------------------------------------------------------- the round trip

  function Contents(files: seq<File>): seq<string> {
    if files == [] then [] else Contents(files[..|files| - 1]) + [files[|files| - 1].content + "\n"]
  }

  /** The file contents in document order, each with the one newline added after it. */
  function AllContents(rows: seq<Row>): seq<string> {
    if rows == [] then [] else
      var last := rows[|rows| - 1];
      AllContents(rows[..|rows| - 1]) + if last.pkg == "" then [] else Contents(last.files)
  }

  predicate EndsLine(part: string) {
    part != "" && part[|part| - 1] == '\n'
  }

  function FeedParts(r: Reader, parts: seq<string>): Reader {
    if parts == [] then r else FeedAll(FeedParts(r, parts[..|parts| - 1]), Lines(parts[|parts| - 1]))
  }

  /** Pieces that each end a line can be read one by one. */
  lemma {:induction false} ReadPartwise(r: Reader, parts: seq<string>)
    requires forall i | 0 <= i < |parts| :: EndsLine(parts[i])
    ensures FeedAll(r, Lines(Concat(parts))) == FeedParts(r, parts)
  {
    if parts != [] {
      var init, last := parts[..|parts| - 1], parts[|parts| - 1];
      ReadPartwise(r, init);
      var before := Concat(init);
      if init == [] {
        assert Concat(parts) == "" + last == last;
      } else {
        assert before == Concat(init[..|init| - 1]) + init[|init| - 1];
        var a := before[..|before| - 1];
        assert before == a + "\n";
        LinesSplit(a, last);
        FeedAppend(r, Lines(before), Lines(last));
      }
    }
  }

  lemma {:induction false} FeedPartsAppend(r: Reader, a: seq<string>, b: seq<string>)
    ensures FeedParts(r, a + b) == FeedParts(FeedParts(r, a), b)
  {
    if b == [] {
      assert a + b == a;
    } else {
      assert (a + b)[..|a + b| - 1] == a + b[..|b| - 1];
      FeedPartsAppend(r, a, b[..|b| - 1]);
    }
  }

  lemma FeedOne(r: Reader, line: string)
    ensures FeedAll(r, [line]) == Feed(r, line)
  {
    assert [line][..0] == [];
    assert FeedAll(r, []) == r;
  }

  lemma BodyOfOneLine(s: string)
    requires IsOneLine(s)
    ensures Body(s + "\n") == s
  {
    assert (s + "\n")[..|s|] == s;
  }

  /** Outside a block, a line that starts with neither a space nor a fence mark is passed over. */
  lemma PassLine(r: Reader, s: string)
    requires r.open.None? && IsOneLine(s) && (s == "" || s[0] !in " `~")
    ensures FeedAll(r, Lines(s + "\n")) == r.(outside := r.outside + [s])
  {
    LinesOfOneLine(s);
    BodyOfOneLine(s);
    FeedOne(r, s + "\n");
    assert s[0..] == s;
  }

  lemma {:induction false} RunOfTicks(n: nat, rest: string)
    requires rest == "" || rest[0] != '`'
    ensures LeadingRun(Ticks(n) + rest, '`') == n
            && LeadingRun(Ticks(n) + rest, ' ') == if n > 0 then 0 else LeadingRun(rest, ' ')
  {
    var s := Ticks(n) + rest;
    forall j | 0 <= j < n ensures s[j] == '`' {}
    assert rest != "" ==> s[n] == rest[0];
    assert n == 0 ==> s == rest;
  }

  /** A line of backticks and an info string without one opens a fence of that width. */
  lemma OpenFence(r: Reader, w: nat, info: string)
    requires r.open.None? && w >= 3 && IsOneLine(info) && '`' !in info && info != ""
    ensures FeedAll(r, Lines(Ticks(w) + info + "\n")) == Reader(Some(Fence('`', w, 0)), "", r.blocks, r.outside)
  {
    var s := Ticks(w) + info;
    LinesOfOneLine(s);
    BodyOfOneLine(s);
    FeedOne(r, s + "\n");
    assert info[0] in info;
    RunOfTicks(w, info);
    assert s[0..] == s && s[w..] == info && s[0] == '`';
  }

  /** The opening line of a section opens a backtick fence of its width. */
  lemma OpenLine(r: Reader, w: nat)
    requires r.open.None? && w >= 3
    ensures FeedAll(r, Lines(Ticks(w) + "text\n")) == Reader(Some(Fence('`', w, 0)), "", r.blocks, r.outside)
  {
    OpenFence(r, w, "text");
    assert Ticks(w) + "text" + "\n" == Ticks(w) + "text\n";
  }

  lemma CloseLine(r: Reader, w: nat)
    requires r.open == Some(Fence('`', w, 0)) && w > 0
    ensures FeedAll(r, Lines(Ticks(w) + "\n")) == Reader(None, "", r.blocks + [r.content], r.outside)
  {
    LinesOfOneLine(Ticks(w));
    BodyOfOneLine(Ticks(w));
    FeedOne(r, Ticks(w) + "\n");
    RunOfTicks(w, "");
    assert Ticks(w) + "" == Ticks(w) && Ticks(w)[0..] == Ticks(w);
  }

  lemma {:induction false} BodyIsPrefix(line: string)
    ensures |Body(line)| <= |line| && Body(line) == line[..|Body(line)|]
  {
    if line != "" && IsLineEnding(line[|line| - 1]) {
      BodyIsPrefix(line[..|line| - 1]);
    }
  }

  lemma NotClosed(line: string, f: Fence)
    requires f.mark == '`' && !HasTicks(line, f.width)
    ensures !Closes(line, f)
  {
    var body := Body(line);
    var indent := LeadingRun(body, ' ');
    BodyIsPrefix(line);
    if LeadingRun(body[indent..], '`') >= f.width {
      forall k | indent <= k < indent + f.width ensures line[k] == '`' {
        assert line[k] == body[indent..][k - indent];
      }
      assert TicksAt(line, indent, f.width);
    }
  }

  lemma NewlineBreaksTicks(s: string, w: nat)
    requires !HasTicks(s, w) && w > 0
    ensures !HasTicks(s + "\n", w)
  {
    var t := s + "\n";
    forall i | 0 <= i <= |t| - w ensures !TicksAt(t, i, w) {
      if i + w <= |s| {
        assert !TicksAt(s, i, w);
        var k :| i <= k < i + w && s[k] != '`';
        assert t[k] == s[k];
      } else {
        assert t[|s|] == '\n';
      }
    }
  }

  lemma TicksWithin(s: string, p: nat, q: nat, w: nat)
    requires p <= q <= |s| && HasTicks(s[p..q], w)
    ensures HasTicks(s, w)
  {
    var i :| 0 <= i <= q - p - w && TicksAt(s[p..q], i, w);
    forall k | p + i <= k < p + i + w ensures s[k] == '`' {
      assert s[k] == s[p..q][k - p];
    }
    assert TicksAt(s, p + i, w);
  }

  lemma LineWithin(s: string, n: nat, w: nat)
    requires n <= |s| && !HasTicks(s, w)
    ensures !HasTicks(s[..n], w) && !HasTicks(s[n..], w)
  {
    assert s[0..n] == s[..n] && s[n..|s|] == s[n..];
    if HasTicks(s[..n], w) {
      TicksWithin(s, 0, n, w);
    }
    if HasTicks(s[n..], w) {
      TicksWithin(s, n, |s|, w);
    }
  }

  lemma {:induction false} LinesNoTicks(s: string, w: nat)
    requires !HasTicks(s, w)
    ensures forall i | 0 <= i < |Lines(s)| :: !HasTicks(Lines(s)[i], w)
    decreases |s|
  {
    if s != "" {
      LineWithin(s, LineLength(s), w);
      LinesNoTicks(s[LineLength(s)..], w);
    }
  }

  lemma {:induction false} ContentSeq(r: Reader, w: nat, lines: seq<string>)
    requires r.open == Some(Fence('`', w, 0)) && forall i | 0 <= i < |lines| :: !HasTicks(lines[i], w)
    ensures FeedAll(r, lines) == Reader(r.open, r.content + Concat(lines), r.blocks, r.outside)
  {
    if lines == [] {
      assert r.content + "" == r.content;
    } else {
      var init, last := lines[..|lines| - 1], lines[|lines| - 1];
      ContentSeq(r, w, init);
      NotClosed(last, r.open.value);
      assert r.content + Concat(init) + last == r.content + Concat(lines);
    }
  }

  /** Inside a block whose width the text never reaches, every line is content, kept to the letter. */
  lemma ContentLines(r: Reader, w: nat, s: string)
    requires r.open == Some(Fence('`', w, 0)) && !HasTicks(s, w)
    ensures FeedAll(r, Lines(s)) == Reader(r.open, r.content + s, r.blocks, r.outside)
  {
    LinesNoTicks(s, w);
    ContentSeq(r, w, Lines(s));
    LinesConcat(s);
  }

  lemma FeedCons(r: Reader, part: string, rest: seq<string>)
    ensures FeedParts(r, [part] + rest) == FeedParts(FeedAll(r, Lines(part)), rest)
  {
    FeedPartsAppend(r, [part], rest);
    assert [part][..0] == [];
    assert FeedParts(r, []) == r;
  }

  /** A labelled line outside a block. */
  lemma PassLabelled(r: Reader, label_: string, text: string)
    requires r.open.None? && IsOneLine(label_) && IsOneLine(text) && label_ != "" && label_[0] !in " `~"
    ensures FeedAll(r, Lines(label_ + text + "\n")) == r.(outside := r.outside + [label_ + text])
  {
    PassLine(r, label_ + text);
  }

  lemma PassBlank(r: Reader)
    requires r.open.None?
    ensures FeedAll(r, Lines("\n")) == r.(outside := r.outside + [""])
  {
    PassLine(r, "");
    assert "" + "\n" == "\n";
  }

  /** The four pieces from the opening fence to the blank line after the block. */
  lemma ReadBlock(r: Reader, content: string)
    requires r.open.None?
    ensures var fence := Ticks(FenceWidth(content));
            FeedParts(r, [fence + "text\n"] + ([content + "\n"] + ([fence + "\n"] + (["\n"] + []))))
            == Reader(None, "", r.blocks + [content + "\n"], r.outside + [""])
  {
    var w := FenceWidth(content);
    var text := content + "\n";
    WidthIsFence(content);
    NewlineBreaksTicks(content, w);
    var started := Reader(Some(Fence('`', w, 0)), "", r.blocks, r.outside);
    var filled := Reader(started.open, text, r.blocks, r.outside);
    var done := Reader(None, "", r.blocks + [text], r.outside);
    OpenLine(r, w);
    ContentLines(started, w, text);
    assert "" + text == text;
    CloseLine(filled, w);
    PassBlank(done);
    FeedCons(r, Ticks(w) + "text\n", [text] + ([Ticks(w) + "\n"] + (["\n"] + [])));
    FeedCons(started, text, [Ticks(w) + "\n"] + (["\n"] + []));
    FeedCons(filled, Ticks(w) + "\n", ["\n"] + []);
    FeedCons(done, "\n", []);
  }

  /** Outside a block, these pieces close the given blocks, leave the given lines outside, and end outside a block. */
  ghost predicate Reads(r: Reader, parts: seq<string>, blocks: seq<string>, outside: seq<string>) {
    var r' := FeedParts(r, parts);
    r'.open.None? && r'.blocks == r.blocks + blocks && r'.outside == r.outside + outside
  }

  lemma Associative(a: seq<string>, b: seq<string>, c: seq<string>)
    ensures a + b + c == a + (b + c)
  {}

  lemma ReadsAppend(r: Reader, a: seq<string>, blocks: seq<string>, outside: seq<string>,
                    b: seq<string>, blocks': seq<string>, outside': seq<string>)
    requires Reads(r, a, blocks, outside) && Reads(FeedParts(r, a), b, blocks', outside')
    ensures Reads(r, a + b, blocks + blocks', outside + outside')
  {
    FeedPartsAppend(r, a, b);
    Associative(r.blocks, blocks, blocks');
    Associative(r.outside, outside, outside');
  }

  lemma ReadsLine(r: Reader, label_: string, text: string)
    requires r.open.None? && IsOneLine(label_) && IsOneLine(text) && label_ != "" && label_[0] !in " `~"
    ensures Reads(r, [label_ + text + "\n"], [], [label_ + text])
  {
    PassLabelled(r, label_, text);
    FeedCons(r, label_ + text + "\n", []);
    assert [label_ + text + "\n"] + [] == [label_ + text + "\n"];
  }

  lemma ReadsBlank(r: Reader)
    requires r.open.None?
    ensures Reads(r, ["\n"], [], [""])
  {
    PassBlank(r);
    FeedCons(r, "\n", []);
    assert ["\n"] + [] == ["\n"];
  }

  /** A labelled line and the blank line after it. */
  lemma ReadsHeading(r: Reader, label_: string, text: string)
    requires r.open.None? && IsOneLine(label_) && IsOneLine(text) && label_ != "" && label_[0] !in " `~"
    ensures Reads(r, [label_ + text + "\n", "\n"], [], [label_ + text, ""])
  {
    ReadsLine(r, label_, text);
    ReadsBlank(FeedParts(r, [label_ + text + "\n"]));
    ReadsAppend(r, [label_ + text + "\n"], [], [label_ + text], ["\n"], [], [""]);
    assert [label_ + text + "\n"] + ["\n"] == [label_ + text + "\n", "\n"];
  }

  /** The lines of a file's section that stand outside its block. */
  function FileOutside(file: File): seq<string> {
    ["#### " + file.name, "", ""]
  }

  /** One file's pieces read back as one block: its content and the added newline. */
  lemma ReadFile(r: Reader, file: File)
    requires r.open.None? && IsOneLine(file.name)
    ensures Reads(r, FileParts(file), [file.content + "\n"], FileOutside(file))
  {
    var fence := Ticks(FenceWidth(file.content));
    var heading := ["#### " + file.name + "\n", "\n"];
    var block := [fence + "text\n"] + ([file.content + "\n"] + ([fence + "\n"] + (["\n"] + [])));
    ReadsHeading(r, "#### ", file.name);
    ReadBlock(FeedParts(r, heading), file.content);
    ReadsAppend(r, heading, [], ["#### " + file.name, ""], block, [file.content + "\n"], [""]);
    assert FileParts(file) == heading + block;
  }

  function FilesOutside(files: seq<File>): seq<string> {
    if files == [] then [] else FilesOutside(files[..|files| - 1]) + FileOutside(files[|files| - 1])
  }

  lemma {:induction false} ReadFiles(r: Reader, files: seq<File>)
    requires r.open.None? && forall i | 0 <= i < |files| :: IsOneLine(files[i].name)
    ensures Reads(r, FilesParts(files), Contents(files), FilesOutside(files))
  {
    if files != [] {
      var init, last := files[..|files| - 1], files[|files| - 1];
      ReadFiles(r, init);
      ReadFile(FeedParts(r, FilesParts(init)), last);
      ReadsAppend(r, FilesParts(init), Contents(init), FilesOutside(init),
        FileParts(last), [last.content + "\n"], FileOutside(last));
    }
  }

  /** A heading and two bullets, with the blank lines between. */
  function HeaderLines(heading: string, first: string, second: string): seq<string> {
    [heading, "", first, second, ""]
  }

  function Ended(lines: seq<string>): (parts: seq<string>)
    ensures |parts| == |lines| && forall i | 0 <= i < |lines| :: parts[i] == lines[i] + "\n"
  {
    if lines == [] then [] else Ended(lines[..|lines| - 1]) + [lines[|lines| - 1] + "\n"]
  }

  function HeaderOutside(row: Row): seq<string> {
    HeaderLines("### " + row.pkg, "* License: " + OrElse(row.license, "Unknown"),
      "* Module: " + OrElse(row.module_, "unknown"))
  }

  /** A line that begins no fence. */
  predicate Plain(line: string) {
    IsOneLine(line) && (line == "" || line[0] !in " `~")
  }

  /** Plain lines are all left outside. */
  lemma {:induction false} ReadPlain(r: Reader, lines: seq<string>)
    requires r.open.None? && forall i | 0 <= i < |lines| :: Plain(lines[i])
    ensures Reads(r, Ended(lines), [], lines)
  {
    if lines != [] {
      var init, last := lines[..|lines| - 1], lines[|lines| - 1];
      ReadPlain(r, init);
      var before := FeedParts(r, Ended(init));
      PassLine(before, last);
      FeedCons(before, last + "\n", []);
      assert [last + "\n"] + [] == [last + "\n"];
      ReadsAppend(r, Ended(init), [], init, [last + "\n"], [], [last]);
      assert lines == init + [last];
    }
  }

  lemma EndedFive(a: string, b: string, c: string, d: string, e: string)
    ensures Ended([a, b, c, d, e]) == [a + "\n", b + "\n", c + "\n", d + "\n", e + "\n"]
  {}

  lemma PlainLabelled(label_: string, text: string)
    requires Plain(label_) && label_ != "" && IsOneLine(text)
    ensures Plain(label_ + text)
  {}

  lemma ReadHeader(r: Reader, row: Row)
    requires r.open.None? && RowIsLines(row)
    ensures Reads(r, HeaderParts(row), [], HeaderOutside(row))
  {
    var license, module_ := OrElse(row.license, "Unknown"), OrElse(row.module_, "unknown");
    PlainLabelled("### ", row.pkg);
    PlainLabelled("* License: ", license);
    PlainLabelled("* Module: ", module_);
    ReadPlain(r, HeaderOutside(row));
    EndedFive("### " + row.pkg, "", "* License: " + license, "* Module: " + module_, "");
    assert "" + "\n" == "\n";
    assert HeaderParts(row) == Ended(HeaderOutside(row));
  }

  function BodyParts(row: Row, notice: Notice): seq<string> {
    if row.files == [] then [notice + "\n"] else FilesParts(row.files)
  }

  function BodyOutside(row: Row, notice: Notice): seq<string> {
    if row.files == [] then [notice] else FilesOutside(row.files)
  }

  function RowOutside(row: Row, notice: Notice): seq<string> {
    if row.pkg == "" then [] else HeaderOutside(row) + BodyOutside(row, notice) + [""]
  }

  lemma ReadBody(r: Reader, row: Row, notice: Notice)
    requires r.open.None? && RowIsLines(row)
    ensures Reads(r, BodyParts(row, notice), Contents(row.files), BodyOutside(row, notice))
  {
    if row.files == [] {
      PassLine(r, notice);
      FeedCons(r, notice + "\n", []);
      assert [notice + "\n"] + [] == [notice + "\n"];
    } else {
      ReadFiles(r, row.files);
    }
  }

  lemma ReadRow(r: Reader, row: Row, notice: Notice)
    requires r.open.None? && RowIsLines(row)
    ensures Reads(r, RowParts(row, notice), if row.pkg == "" then [] else Contents(row.files), RowOutside(row, notice))
  {
    if row.pkg != "" {
      var header, body := HeaderParts(row), BodyParts(row, notice);
      ReadHeader(r, row);
      ReadBody(FeedParts(r, header), row, notice);
      ReadsAppend(r, header, [], HeaderOutside(row), body, Contents(row.files), BodyOutside(row, notice));
      ReadsBlank(FeedParts(r, header + body));
      ReadsAppend(r, header + body, [] + Contents(row.files), HeaderOutside(row) + BodyOutside(row, notice), ["\n"], [],
        [""]);
      assert RowParts(row, notice) == header + body + ["\n"];
    }
  }

  function AllOutside(rows: seq<Row>, notice: Notice): seq<string> {
    if rows == [] then [] else AllOutside(rows[..|rows| - 1], notice) + RowOutside(rows[|rows| - 1], notice)
  }

  lemma {:induction false} ReadSections(rows: seq<Row>, notice: Notice)
    requires forall i | 0 <= i < |rows| :: RowIsLines(rows[i])
    ensures Reads(START, SectionParts(rows, notice), AllContents(rows), AllOutside(rows, notice))
  {
    if rows != [] {
      var init, last := rows[..|rows| - 1], rows[|rows| - 1];
      ReadSections(init, notice);
      ReadRow(FeedParts(START, SectionParts(init, notice)), last, notice);
      ReadsAppend(START, SectionParts(init, notice), AllContents(init), AllOutside(init, notice),
        RowParts(last, notice), if last.pkg == "" then [] else Contents(last.files), RowOutside(last, notice));
    }
  }

  lemma {:induction false} FilesPartsEndLines(files: seq<File>)
    ensures forall i | 0 <= i < |FilesParts(files)| :: EndsLine(FilesParts(files)[i])
  {
    if files != [] {
      FilesPartsEndLines(files[..|files| - 1]);
    }
  }

  lemma {:induction false} PartsEndLines(rows: seq<Row>, notice: Notice)
    ensures forall i | 0 <= i < |SectionParts(rows, notice)| :: EndsLine(SectionParts(rows, notice)[i])
  {
    if rows != [] {
      PartsEndLines(rows[..|rows| - 1], notice);
      FilesPartsEndLines(rows[|rows| - 1].files);
    }
  }

  /** The lines of a document outside its fenced blocks. */
  function ReadOutside(document: string): seq<string> {
    FeedAll(START, Lines(document)).outside
  }

  /** Reading the emitted sections as CommonMark recovers every file's content and its one added newline, in order,
      whatever the files contain. */
  lemma FenceRoundTrip(rows: seq<Row>, notice: Notice)
    requires forall i | 0 <= i < |rows| :: RowIsLines(rows[i])
    ensures ReadBlocks(Concat(SectionParts(rows, notice))) == AllContents(rows)
    ensures ReadOutside(Concat(SectionParts(rows, notice))) == AllOutside(rows, notice)
  {
    PartsEndLines(rows, notice);
    ReadPartwise(START, SectionParts(rows, notice));
    ReadSections(rows, notice);
  }

  // ---------------------------------------------------------------- the headers read back

  /** What follows the label on the lines that begin with it. */
  function Labelled(lines: seq<string>, label_: string): seq<string> {
    if lines == [] then [] else
      var last := lines[|lines| - 1];
      Labelled(lines[..|lines| - 1], label_) + if label_ <= last then [last[|label_|..]] else []
  }

  lemma {:induction false} LabelledAppend(a: seq<string>, b: seq<string>, label_: string)
    ensures Labelled(a + b, label_) == Labelled(a, label_) + Labelled(b, label_)
  {
    if b == [] {
      assert a + b == a;
    } else {
      assert (a + b)[..|a + b| - 1] == a + b[..|b| - 1];
      LabelledAppend(a, b[..|b| - 1], label_);
    }
  }

  const PACKAGE := "### "
  const LICENSE := "* License: "
  const MODULE := "* Module: "
  const FILE := "#### "

  /** What each row with a package contributes, in order. */
  function Collect(rows: seq<Row>, what: Row -> seq<string>): seq<string> {
    if rows == [] then [] else
      var last := rows[|rows| - 1];
      Collect(rows[..|rows| - 1], what) + if last.pkg == "" then [] else what(last)
  }

  function Names(files: seq<File>): seq<string> {
    if files == [] then [] else Names(files[..|files| - 1]) + [files[|files| - 1].name]
  }

  /** The label and the text after it. */
  lemma LabelsOwn(label_: string, text: string)
    ensures label_ <= label_ + text && (label_ + text)[|label_|..] == text
  {}

  predicate IsLabel(label_: string) {
    label_ == PACKAGE || label_ == LICENSE || label_ == MODULE || label_ == FILE
  }

  /** No label begins another. */
  lemma LabelsDiffer(own: string, label_: string) returns (i: nat)
    requires IsLabel(own) && IsLabel(label_) && own != label_
    ensures i < |own| && i < |label_| && own[i] != label_[i]
  {
    if own[0] != label_[0] {
      i := 0;
    } else if own[0] == '#' {
      i := 3;
    } else {
      i := 2;
    }
  }

  lemma LabelledOne(line: string, label_: string)
    ensures Labelled([line], label_) == if label_ <= line then [line[|label_|..]] else []
  {
    assert [line][..0] == [];
  }

  /** A labelled line, as seen under any of the labels. */
  lemma LabelledLine(own: string, text: string, label_: string)
    requires IsLabel(own) && IsLabel(label_)
    ensures Labelled([own + text], label_) == if own == label_ then [text] else []
  {
    LabelledOne(own + text, label_);
    if own == label_ {
      LabelsOwn(own, text);
    } else {
      var i := LabelsDiffer(own, label_);
      assert (own + text)[i] == own[i];
    }
  }

  /** A line that begins neither a heading nor a bullet. */
  lemma UnlabelledLine(line: string, label_: string)
    requires IsLabel(label_) && (line == "" || line[0] !in "#*")
    ensures Labelled([line], label_) == []
  {
    LabelledOne(line, label_);
  }

  function PackageOf(): Row -> seq<string> {
    (row: Row) => [row.pkg]
  }

  function LicenseOf(): Row -> seq<string> {
    (row: Row) => [if row.license == "" then "Unknown" else row.license]
  }

  function ModuleOf(): Row -> seq<string> {
    (row: Row) => [if row.module_ == "" then "unknown" else row.module_]
  }

  function FilesOf(): Row -> seq<string> {
    (row: Row) => Names(row.files)
  }

  function Field(label_: string): Row -> seq<string> {
    if label_ == PACKAGE then PackageOf()
    else if label_ == LICENSE then LicenseOf()
    else if label_ == MODULE then ModuleOf()
    else FilesOf()
  }

  lemma LabelledThree(a: seq<string>, b: seq<string>, c: seq<string>, label_: string)
    ensures Labelled(a + b + c, label_) == Labelled(a, label_) + Labelled(b, label_) + Labelled(c, label_)
  {
    LabelledAppend(a + b, c, label_);
    LabelledAppend(a, b, label_);
  }

  /** A heading with the blank line after it. */
  lemma LabelledHeading(own: string, text: string, label_: string)
    requires IsLabel(own) && IsLabel(label_)
    ensures Labelled([own + text, ""], label_) == if own == label_ then [text] else []
  {
    LabelledLine(own, text, label_);
    UnlabelledLine("", label_);
    LabelledAppend([own + text], [""], label_);
    assert [own + text] + [""] == [own + text, ""];
  }

  lemma HeaderLinesLabelled(heading: string, first: string, second: string, label_: string)
    requires IsLabel(label_)
    ensures Labelled(HeaderLines(heading, first, second), label_)
         == Labelled([heading], label_) + Labelled([first], label_) + Labelled([second], label_)
  {
    UnlabelledLine("", label_);
    LabelledAppend([heading], [""], label_);
    LabelledAppend([second], [""], label_);
    LabelledThree([heading] + [""], [first], [second] + [""], label_);
    assert HeaderLines(heading, first, second) == [heading] + [""] + [first] + ([second] + [""]);
  }

  lemma HeaderLabelled(row: Row, label_: string)
    requires IsLabel(label_)
    ensures Labelled(HeaderOutside(row), label_) == if label_ == FILE then [] else Field(label_)(row)
  {
    var license, module_ := OrElse(row.license, "Unknown"), OrElse(row.module_, "unknown");
    LabelledLine(PACKAGE, row.pkg, label_);
    LabelledLine(LICENSE, license, label_);
    LabelledLine(MODULE, module_, label_);
    HeaderLinesLabelled(PACKAGE + row.pkg, LICENSE + license, MODULE + module_, label_);
  }

  lemma FileLabelled(file: File, label_: string)
    requires IsLabel(label_)
    ensures Labelled(FileOutside(file), label_) == if label_ == FILE then [file.name] else []
  {
    LabelledHeading(FILE, file.name, label_);
    UnlabelledLine("", label_);
    LabelledAppend([FILE + file.name, ""], [""], label_);
    assert FileOutside(file) == [FILE + file.name, ""] + [""];
  }

  lemma {:induction false} FilesLabelled(files: seq<File>, label_: string)
    requires IsLabel(label_)
    ensures Labelled(FilesOutside(files), label_) == if label_ == FILE then Names(files) else []
  {
    if files != [] {
      var init, last := files[..|files| - 1], files[|files| - 1];
      FilesLabelled(init, label_);
      FileLabelled(last, label_);
      LabelledAppend(FilesOutside(init), FileOutside(last), label_);
    }
  }

  lemma BodyLabelled(row: Row, notice: Notice, label_: string)
    requires IsLabel(label_)
    ensures Labelled(BodyOutside(row, notice), label_) == if label_ == FILE then Names(row.files) else []
  {
    if row.files == [] {
      UnlabelledLine(notice, label_);
    } else {
      FilesLabelled(row.files, label_);
    }
  }

  lemma ClosedByBlank(header: seq<string>, body: seq<string>, label_: string)
    requires IsLabel(label_)
    ensures Labelled(header + body + [""], label_) == Labelled(header, label_) + Labelled(body, label_)
  {
    UnlabelledLine("", label_);
    LabelledThree(header, body, [""], label_);
  }

  lemma RowLabelled(row: Row, notice: Notice, label_: string)
    requires IsLabel(label_) && row.pkg != ""
    ensures Labelled(RowOutside(row, notice), label_) == Field(label_)(row)
  {
    HeaderLabelled(row, label_);
    BodyLabelled(row, notice, label_);
    ClosedByBlank(HeaderOutside(row), BodyOutside(row, notice), label_);
  }

  lemma {:induction false} RowsLabelled(rows: seq<Row>, notice: Notice, label_: string)
    requires IsLabel(label_)
    ensures Labelled(AllOutside(rows, notice), label_) == Collect(rows, Field(label_))
  {
    if rows != [] {
      var init, last := rows[..|rows| - 1], rows[|rows| - 1];
      RowsLabelled(init, notice, label_);
      LabelledAppend(AllOutside(init, notice), RowOutside(last, notice), label_);
      if last.pkg != "" {
        RowLabelled(last, notice, label_);
      }
    }
  }

  /** The headers read back: outside the blocks, which a file's content cannot reach, the labelled lines give the
      package, license and module of every row, and the names of its files, in order. */
  lemma HeadersRoundTrip(rows: seq<Row>, notice: Notice)
    requires forall i | 0 <= i < |rows| :: RowIsLines(rows[i])
    ensures var outside := ReadOutside(Concat(SectionParts(rows, notice)));
            && Labelled(outside, "### ") == Collect(rows, PackageOf())
            && Labelled(outside, "* License: ") == Collect(rows, LicenseOf())
            && Labelled(outside, "* Module: ") == Collect(rows, ModuleOf())
            && Labelled(outside, "#### ") == Collect(rows, FilesOf())
  {
    FenceRoundTrip(rows, notice);
    RowsLabelled(rows, notice, PACKAGE);
    RowsLabelled(rows, notice, LICENSE);
    RowsLabelled(rows, notice, MODULE);
    RowsLabelled(rows, notice, FILE);
  }

  lemma {:induction false} RowOutsideShown(rows: seq<Row>, notice: Notice, i: nat, line: string)
    requires i < |rows| && line in RowOutside(rows[i], notice)
    ensures line in AllOutside(rows, notice)
  {
    if i < |rows| - 1 {
      RowOutsideShown(rows[..|rows| - 1], notice, i, line);
    }
  }

  /** Where a row has no files, the notice is shown. */
  lemma NoticeShown(rows: seq<Row>, notice: Notice, i: nat)
    requires (forall i | 0 <= i < |rows| :: RowIsLines(rows[i]))
    requires i < |rows| && rows[i].pkg != "" && rows[i].files == []
    ensures notice in ReadOutside(Concat(SectionParts(rows, notice)))
  {
    FenceRoundTrip(rows, notice);
    assert notice in BodyOutside(rows[i], notice);
    RowOutsideShown(rows, notice, i, notice);
  }
}
