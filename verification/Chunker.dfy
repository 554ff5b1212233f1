/** How a markdown document is cut into the chunks that are indexed.

    A `char` stands for one character here, so that trimming can be over Unicode white space while
    the two thresholds count the bytes of the UTF-8 encoding. */
module Chunker {
  import opened Text

  const MAX_CHUNK_BYTES: nat := 2000
  const MIN_CHUNK_BYTES: nat := 20

  /** The characters `unicode.IsSpace` accepts. */
  const SPACES: set<char> := {
    '\t', '\n', '\U{0B}', '\U{0C}', '\r', ' ', '\U{85}', '\U{A0}', '\U{1680}', '\U{2000}', '\U{2001}',
    '\U{2002}', '\U{2003}', '\U{2004}', '\U{2005}', '\U{2006}', '\U{2007}', '\U{2008}', '\U{2009}',
    '\U{200A}', '\U{2028}', '\U{2029}', '\U{202F}', '\U{205F}', '\U{3000}'
  }

  const LINE: string := "\n"
  const PARAGRAPH: string := "\n\n"

  datatype Chunk = Chunk(index: nat, content: string)

  function TrimSpace(s: string): string {
    Trim(s, SPACES)
  }

  function Utf8Size(c: char): nat {
    var n := c as int;
    if n < 0x80 then 1 else if n < 0x800 then 2 else if n < 0x1_0000 then 3 else 4
  }

  /** The length Go's `len` gives. */
  function Bytes(s: string): nat {
    if s == "" then 0 else Bytes(s[..|s| - 1]) + Utf8Size(s[|s| - 1])
  }

  // ---------------------------------------------------------------- headers

  predicate IsFence(line: string) {
    HasPrefix(TrimSpace(line), "```") || HasPrefix(TrimSpace(line), "~~~")
  }

  predicate IsHeader(line: string) {
    HasPrefix(TrimSpace(line), "## ") || HasPrefix(TrimSpace(line), "### ")
  }

  /** Whether a fenced block is open after these lines: an odd number of them are fences. */
  predicate InFence(lines: seq<string>) {
    lines != [] && InFence(lines[..|lines| - 1]) != IsFence(lines[|lines| - 1])
  }

  /** Line k starts a section: the first line with any text, and every later header that is not
      inside a fenced block. */
  ghost predicate Starts(lines: seq<string>, k: int) {
    && 0 <= k < |lines|
    && lines[k] != ""
    && (  || (forall j :: 0 <= j < k ==> lines[j] == "")
          || (IsHeader(lines[k]) && !InFence(lines[..k + 1])))
  }

  ghost predicate Increasing(starts: seq<int>) {
    forall i, j :: 0 <= i < j < |starts| ==> starts[i] < starts[j]
  }

  /** The sections are the lines from one start up to the next. */
  ghost predicate Spans(lines: seq<string>, sections: seq<string>, starts: seq<int>)
    requires Increasing(starts)
  {
    && |starts| == |sections|
    && (forall i :: 0 <= i < |starts| ==> 0 <= starts[i] < |lines|)
    && forall i :: 0 <= i < |starts| ==> sections[i] == Join(lines[starts[i]..End(lines, starts, i)], LINE)
  }

  /** `splitByHeaders`: a section for every start, and no other. */
  ghost predicate SectionsAt(lines: seq<string>, sections: seq<string>, starts: seq<int>) {
    && Increasing(starts)
    && (forall k :: Starts(lines, k) <==> k in starts)
    && Spans(lines, sections, starts)
  }

  function End(lines: seq<string>, starts: seq<int>, i: int): int
    requires 0 <= i < |starts|
  {
    if i + 1 < |starts| then starts[i + 1] else |lines|
  }

  lemma {:induction false} JoinConcat(a: seq<string>, b: seq<string>, sep: string)
    requires a != [] && b != []
    ensures Join(a + b, sep) == Join(a, sep) + sep + Join(b, sep)
  {
    if |a| == 1 {
      assert (a + b)[1..] == b;
    } else {
      assert (a + b)[1..] == a[1..] + b;
      JoinConcat(a[1..], b, sep);
      var x, y := Join(a[1..], sep), Join(b, sep);
      assert a[0] + sep + (x + sep + y) == a[0] + sep + x + sep + y;
    }
  }

  lemma {:induction false} SectionsFrom(lines: seq<string>, sections: seq<string>, starts: seq<int>, i: nat)
    requires Increasing(starts) && Spans(lines, sections, starts) && i < |starts|
    ensures Join(sections[i..], LINE) == Join(lines[starts[i]..], LINE)
    decreases |starts| - i
  {
    hide Join;
    JoinOne(sections[i], LINE);
    if i + 1 < |starts| {
      SectionsFrom(lines, sections, starts, i + 1);
      var here, rest := lines[starts[i]..starts[i + 1]], lines[starts[i + 1]..];
      assert lines[starts[i]..] == here + rest;
      JoinConcat(here, rest, LINE);
      assert sections[i..] == [sections[i]] + sections[i + 1..];
      JoinConcat([sections[i]], sections[i + 1..], LINE);
    } else {
      assert lines[starts[i]..] == lines[starts[i]..|lines|];
      assert sections[i..] == [sections[i]];
    }
  }

  lemma {:induction false} FirstText(lines: seq<string>, some: int) returns (k: nat)
    requires 0 <= some < |lines| && lines[some] != ""
    ensures k <= some && lines[k] != "" && forall j :: 0 <= j < k ==> lines[j] == ""
    decreases some
  {
    if j :| 0 <= j < some && lines[j] != "" { k := FirstText(lines, j); } else { k := some; }
  }

  lemma {:induction false} LeadingBlank(lines: seq<string>, k: nat)
    requires k < |lines| && forall j :: 0 <= j < k ==> lines[j] == ""
    requires forall j :: 0 <= j < |lines| ==> '\n' !in lines[j]
    requires lines[k] != "" || k + 1 == |lines|
    ensures TrimLeft(Join(lines, LINE), {'\n'}) == Join(lines[k..], LINE)
  {
    if k == 0 {
      assert lines[0..] == lines;
      if lines[0] != "" { assert Join(lines, LINE)[0] == lines[0][0]; assert lines[0][0] in lines[0]; }
    } else {
      LeadingBlank(lines[1..], k - 1);
      assert Join(lines, LINE)[1..] == Join(lines[1..], LINE);
      assert lines[1..][k - 1..] == lines[k..];
    }
  }

  lemma BlankHasNone(lines: seq<string>, sections: seq<string>, starts: seq<int>)
    requires SectionsAt(lines, sections, starts) && forall j :: 0 <= j < |lines| ==> lines[j] == ""
    ensures sections == []
  {
    hide IsHeader, InFence, Join;
    forall k ensures !Starts(lines, k) {}
    assert |starts| > 0 ==> starts[0] in starts && Starts(lines, starts[0]);
    assert |sections| == |starts|;
  }

  lemma FirstStart(lines: seq<string>, sections: seq<string>, starts: seq<int>, k: nat)
    requires SectionsAt(lines, sections, starts)
    requires k < |lines| && lines[k] != "" && forall j :: 0 <= j < k ==> lines[j] == ""
    ensures |starts| > 0 && starts[0] == k
  {
    hide IsHeader, InFence, Join;
    assert Starts(lines, k);
    assert starts[0] in starts && Starts(lines, starts[0]);
  }

  /** Nothing is lost or added between sections: joined by newlines they are the document again, less
      the line breaks it began with. */
  lemma SectionsRejoin(lines: seq<string>, sections: seq<string>, starts: seq<int>)
    requires lines != [] && SectionsAt(lines, sections, starts)
    requires forall j :: 0 <= j < |lines| ==> '\n' !in lines[j]
    ensures Join(sections, LINE) == TrimLeft(Join(lines, LINE), {'\n'})
  {
    hide Join, TrimLeft, Starts, Spans;
    if last :| 0 <= last < |lines| && lines[last] != "" {
      var k := FirstText(lines, last);
      FirstStart(lines, sections, starts, k);
      SectionsFrom(lines, sections, starts, 0);
      assert sections[0..] == sections;
      LeadingBlank(lines, k);
    } else {
      BlankHasNone(lines, sections, starts);
      LeadingBlank(lines, |lines| - 1);
      assert lines[|lines| - 1..] == [""];
      JoinNone();
    }
  }

  lemma JoinNone()
    ensures Join([], LINE) == "" == Join([""], LINE)
  {}

  lemma JoinOne(s: string, sep: string)
    ensures Join([s], sep) == s
  {}

  // ---------------------------------------------------------------- one more line

  lemma StartsOfPrefix(lines: seq<string>, line: string, k: int)
    requires k < |lines|
    ensures Starts(lines + [line], k) <==> Starts(lines, k)
  {
    if 0 <= k { assert (lines + [line])[..k + 1] == lines[..k + 1]; }
  }

  lemma SpansCut(lines: seq<string>, line: string, sections: seq<string>, starts: seq<int>)
    requires Increasing(starts) && Spans(lines, sections, starts)
    ensures Increasing(starts + [|lines|]) && Spans(lines + [line], sections + [line], starts + [|lines|])
  {
    var all, starts' := lines + [line], starts + [|lines|];
    assert all[|lines|..|all|] == [line];
    forall i | 0 <= i < |starts| ensures all[starts[i]..End(all, starts', i)] == lines[starts[i]..End(lines, starts, i)] {}
  }

  lemma SpansExtend(lines: seq<string>, line: string, sections: seq<string>, current: string, starts: seq<int>)
    requires Increasing(starts) && Spans(lines, sections + [current], starts)
    ensures Spans(lines + [line], sections + [current + LINE + line], starts)
  {
    var all, last := lines + [line], |starts| - 1;
    forall i | 0 <= i < last ensures all[starts[i]..End(all, starts, i)] == lines[starts[i]..End(lines, starts, i)] {}
    var open := lines[starts[last]..|lines|];
    assert all[starts[last]..|all|] == open + [line];
    assert (sections + [current])[last] == current == Join(open, LINE);
    JoinAppend(open, line, LINE);
  }

  lemma CutHere(lines: seq<string>, line: string, sections: seq<string>, starts: seq<int>)
    requires SectionsAt(lines, sections, starts) && Starts(lines + [line], |lines|)
    ensures SectionsAt(lines + [line], sections + [line], starts + [|lines|])
  {
    hide Starts, Spans, Increasing;
    SpansCut(lines, line, sections, starts);
    forall k ensures Starts(lines + [line], k) <==> k in starts + [|lines|] {
      StartsInRange(lines, k);
      StartsInRange(lines + [line], k);
      if k < |lines| { StartsOfPrefix(lines, line, k); }
    }
  }

  lemma StartsInRange(lines: seq<string>, k: int)
    ensures Starts(lines, k) ==> 0 <= k < |lines|
  {}

  lemma NoCutHere(lines: seq<string>, line: string, sections: seq<string>, current: string, starts: seq<int>)
    requires SectionsAt(lines, sections + [current], starts) && !Starts(lines + [line], |lines|)
    ensures SectionsAt(lines + [line], sections + [current + LINE + line], starts)
  {
    hide Starts, Spans, Increasing;
    SpansExtend(lines, line, sections, current, starts);
    forall k ensures Starts(lines + [line], k) <==> k in starts {
      StartsInRange(lines, k);
      StartsInRange(lines + [line], k);
      if k < |lines| { StartsOfPrefix(lines, line, k); }
    }
  }

  /** While nothing is gathered every line so far is blank; then the open section is the last. */
  ghost predicate Gathered(lines: seq<string>, sections: seq<string>, current: string, starts: seq<int>) {
    if current == "" then sections == [] && starts == [] && forall j :: 0 <= j < |lines| ==> lines[j] == ""
    else SectionsAt(lines, sections + [current], starts)
  }

  lemma BlankThen(lines: seq<string>, line: string)
    requires line != "" && forall j :: 0 <= j < |lines| ==> lines[j] == ""
    ensures SectionsAt(lines + [line], [line], [|lines|])
  {
    var all := lines + [line];
    hide IsHeader, InFence;
    assert all[|lines|..|all|] == [line];
    assert forall j :: 0 <= j < |lines| ==> all[j] == lines[j] == "";
    assert all[|lines|] == line;
    forall k ensures Starts(all, k) <==> k == |lines| {}
  }

  lemma NoText(lines: seq<string>)
    requires forall j :: 0 <= j < |lines| ==> lines[j] == ""
    ensures SectionsAt(lines, [], [])
  {}

  lemma SomeText(lines: seq<string>, sections: seq<string>, starts: seq<int>) returns (j: nat)
    requires SectionsAt(lines, sections, starts) && sections != []
    ensures j < |lines| && lines[j] != ""
  {
    hide Join, InFence, IsHeader;
    assert |starts| > 0;
    j := starts[0];
    assert j in starts && Starts(lines, j);
  }

  lemma HeaderHasText(line: string)
    requires IsHeader(line)
    ensures line != ""
  {}

  /** After some text, the next line starts a section exactly when it is a header and the fence flag,
      with the line itself counted, is off. */
  lemma NextStarts(lines: seq<string>, line: string, j: nat)
    requires j < |lines| && lines[j] != ""
    ensures Starts(lines + [line], |lines|) <==> IsHeader(line) && !InFence(lines + [line])
  {
    hide IsHeader, InFence;
    var all := lines + [line];
    assert all[..|lines| + 1] == all && all[|lines|] == line && all[j] != "";
    if IsHeader(line) { HeaderHasText(line); }
  }

  lemma FenceAfter(lines: seq<string>, line: string)
    ensures InFence(lines + [line]) == (InFence(lines) != IsFence(line))
  {
    hide IsFence;
    assert (lines + [line])[..|lines|] == lines;
  }

  predicate CutBefore(lines: seq<string>, line: string, current: string) {
    IsHeader(line) && !InFence(lines + [line]) && current != ""
  }

  /** The sections and the open section after one more line. */
  lemma OneLine(lines: seq<string>, line: string, sections: seq<string>, current: string, starts: seq<int>)
      returns (starts': seq<int>)
    requires Gathered(lines, sections, current, starts)
    ensures var cut := CutBefore(lines, line, current);
            Gathered(lines + [line], if cut then sections + [current] else sections,
                     if cut || current == "" then line else current + LINE + line, starts')
  {
    hide SectionsAt, IsHeader, InFence, Starts;
    starts' := starts;
    if current == "" {
      if line != "" {
        starts' := [|lines|];
        BlankThen(lines, line);
        assert [] + [line] == [line];
      }
      return;
    }
    var j := SomeText(lines, sections + [current], starts);
    NextStarts(lines, line, j);
    if CutBefore(lines, line, current) {
      HeaderHasText(line);
      CutHere(lines, line, sections + [current], starts);
      starts' := starts + [|lines|];
    } else {
      NoCutHere(lines, line, sections, current, starts);
    }
  }

  /** The finished sections and the open one after these lines. */
  function Scan(lines: seq<string>): (seq<string>, string) {
    if lines == [] then ([], "") else
      var before, line := lines[..|lines| - 1], lines[|lines| - 1];
      var (sections, current) := Scan(before);
      if CutBefore(before, line, current) then (sections + [current], line)
      else (sections, if current == "" then line else current + LINE + line)
  }

  function Sections(lines: seq<string>): seq<string> {
    var (sections, current) := Scan(lines);
    if current == "" then sections else sections + [current]
  }

  lemma {:induction false} ScanGathers(lines: seq<string>) returns (starts: seq<int>)
    ensures Gathered(lines, Scan(lines).0, Scan(lines).1, starts)
  {
    hide SectionsAt, CutBefore;
    if lines == [] {
      starts := [];
    } else {
      var before, line := lines[..|lines| - 1], lines[|lines| - 1];
      var starts' := ScanGathers(before);
      starts := OneLine(before, line, Scan(before).0, Scan(before).1, starts');
      assert before + [line] == lines;
    }
  }

  /** The sections begin at exactly the lines that start one, and hold all the lines from there up to
      the next; so joined by newlines they are the text again, less the line breaks it began with. */
  lemma SectionsAreExact(content: string) returns (starts: seq<int>)
    ensures SectionsAt(Split(content, LINE), Sections(Split(content, LINE)), starts)
    ensures Join(Sections(Split(content, LINE)), LINE) == TrimLeft(content, {'\n'})
  {
    hide SectionsAt, Scan, Join, TrimLeft;
    var lines := Split(content, LINE);
    starts := ScanGathers(lines);
    if Scan(lines).1 == "" { NoText(lines); }
    LinesLackBreaks(content, lines);
    SectionsRejoin(lines, Sections(lines), starts);
  }

  method SplitByHeaders(content: string) returns (sections: seq<string>)
    ensures sections == Sections(Split(content, LINE))
  {
    hide IsFence, IsHeader, InFence;
    var lines := Split(content, LINE);
    sections := [];
    var current, inCodeFence := "", false;
    FenceNone();
    for k := 0 to |lines|
      invariant inCodeFence == InFence(lines[..k])
      invariant (sections, current) == Scan(lines[..k])
    {
      var line := lines[k];
      FenceAfter(lines[..k], line);
      assert lines[..k + 1] == lines[..k] + [line] && lines[..k + 1][..k] == lines[..k];
      if IsFence(line) {
        inCodeFence := !inCodeFence;
      }
      if !inCodeFence && IsHeader(line) && current != "" {
        sections := sections + [current];
        current := "";
      }
      if current != "" {
        current := current + LINE;
      }
      current := current + line;
      assert "" + line == line;
    }
    assert lines[..|lines|] == lines;
    if current != "" {
      sections := sections + [current];
    }
  }

  lemma FenceNone()
    ensures !InFence([])
  {}

  lemma LinesLackBreaks(content: string, lines: seq<string>)
    requires lines == Split(content, LINE)
    ensures forall j :: 0 <= j < |lines| ==> '\n' !in lines[j]
  {
    forall j | 0 <= j < |lines| ensures '\n' !in lines[j] {
      var p := lines[j];
      assert p in lines && !Contains(p, LINE);
      forall i | 0 <= i < |p| ensures p[i] != '\n' {
        assert !OccursAt(p, LINE, i) && p[i..i + 1] == [p[i]];
      }
    }
  }

  // ---------------------------------------------------------------- paragraphs and chunks

  /** The texts that are not blank, trimmed. */
  function Kept(texts: seq<string>): seq<string> {
    if texts == [] then [] else
      var last := TrimSpace(texts[|texts| - 1]);
      Kept(texts[..|texts| - 1]) + (if last == "" then [] else [last])
  }

  function Paragraphs(content: string): seq<string> {
    Kept(Split(content, PARAGRAPH))
  }

  lemma KeptSnoc(texts: seq<string>, text: string)
    ensures Kept([]) == []
    ensures Kept(texts + [text]) == if TrimSpace(text) == "" then Kept(texts) else Kept(texts) + [TrimSpace(text)]
  {
    hide TrimSpace;
    assert (texts + [text])[..|texts|] == texts;
    assert Kept(texts) + [] == Kept(texts);
  }

  method SplitByParagraphs(content: string) returns (result: seq<string>)
    ensures result == Paragraphs(content)
  {
    hide TrimSpace, Kept, Split, Contains;
    var raw := Split(content, PARAGRAPH);
    result := [];
    KeptSnoc([], "");
    for k := 0 to |raw|
      invariant result == Kept(raw[..k])
    {
      assert raw[..k + 1] == raw[..k] + [raw[k]];
      KeptSnoc(raw[..k], raw[k]);
      var p := TrimSpace(raw[k]);
      if p != "" {
        result := result + [p];
      }
    }
    assert raw[..|raw|] == raw;
  }

  /** Large sections by their paragraphs, the others whole. */
  function Expand(sections: seq<string>): seq<string> {
    if sections == [] then [] else
      var last := sections[|sections| - 1];
      Expand(sections[..|sections| - 1]) + (if Bytes(last) > MAX_CHUNK_BYTES then Paragraphs(last) else [last])
  }

  /** The contents of the chunks made of trimmed, non-blank texts: a small text joins the chunk before it. */
  function Merged(texts: seq<string>): seq<string> {
    if texts == [] then [] else
      var before, last := Merged(texts[..|texts| - 1]), texts[|texts| - 1];
      if Bytes(last) < MIN_CHUNK_BYTES && before != []
      then before[..|before| - 1] + [before[|before| - 1] + PARAGRAPH + last]
      else before + [last]
  }

  /** The texts chunks are made of, for a trimmed document: its sections, or its paragraphs when
      there is at most one section. */
  function Texts(document: string): seq<string> {
    var sections := Sections(Split(document, LINE));
    Kept(Expand(if |sections| <= 1 then Paragraphs(document) else sections))
  }

  /** The contents of the chunks of a document. */
  function ChunksOf(content: string): seq<string> {
    if TrimSpace(content) == "" then [] else Merged(Texts(TrimSpace(content)))
  }

  /** The characters that are not white space, in order. */
  function Visible(s: string): string {
    if s == "" then "" else
      Visible(s[..|s| - 1]) + (if s[|s| - 1] in SPACES then "" else [s[|s| - 1]])
  }

  function VisibleAll(texts: seq<string>): string {
    if texts == [] then "" else VisibleAll(texts[..|texts| - 1]) + Visible(texts[|texts| - 1])
  }

  function Contents(chunks: seq<Chunk>): (r: seq<string>)
    ensures |r| == |chunks| && forall i :: 0 <= i < |r| ==> r[i] == chunks[i].content
  {
    seq(|chunks|, i requires 0 <= i < |chunks| => chunks[i].content)
  }

  method ChunkMarkdown(content: string) returns (chunks: seq<Chunk>)
    ensures Contents(chunks) == ChunksOf(content)
    ensures forall i :: 0 <= i < |chunks| ==> chunks[i].index == i
  {
    hide TrimSpace, Split, Kept, Paragraphs, Expand, Merged, Sections;
    var document := TrimSpace(content);
    if document == "" { return []; }
    var sections := SplitByHeaders(document);
    if |sections| <= 1 {
      sections := SplitByParagraphs(document);
    }
    var expanded := ExpandSections(sections);
    chunks := BuildChunks(expanded);
  }

  lemma ExpandSnoc(sections: seq<string>, last: string)
    ensures Expand([]) == []
    ensures Expand(sections + [last]) == Expand(sections) + if Bytes(last) > MAX_CHUNK_BYTES then Paragraphs(last) else [last]
  {
    hide Bytes, Paragraphs;
    assert (sections + [last])[..|sections|] == sections;
  }

  method ExpandSections(sections: seq<string>) returns (expanded: seq<string>)
    ensures expanded == Expand(sections)
  {
    hide Expand, Bytes, Paragraphs;
    expanded := [];
    ExpandSnoc([], "");
    for k := 0 to |sections|
      invariant expanded == Expand(sections[..k])
    {
      assert sections[..k + 1] == sections[..k] + [sections[k]];
      ExpandSnoc(sections[..k], sections[k]);
      if Bytes(sections[k]) > MAX_CHUNK_BYTES {
        var paragraphs := SplitByParagraphs(sections[k]);
        expanded := expanded + paragraphs;
      } else {
        expanded := expanded + [sections[k]];
      }
    }
    assert sections[..|sections|] == sections;
  }

  lemma MergedNone()
    ensures Merged(Kept([])) == []
  {}

  lemma MergedSnoc(texts: seq<string>, text: string)
    ensures var before, n := Merged(texts), |Merged(texts)|;
            Merged(texts + [text]) == if Bytes(text) < MIN_CHUNK_BYTES && n > 0
                                      then before[..n - 1] + [before[n - 1] + PARAGRAPH + text]
                                      else before + [text]
  {
    hide Bytes;
    assert (texts + [text])[..|texts|] == texts;
  }

  method BuildChunks(texts: seq<string>) returns (chunks: seq<Chunk>)
    ensures Contents(chunks) == Merged(Kept(texts))
    ensures forall i :: 0 <= i < |chunks| ==> chunks[i].index == i
  {
    hide Bytes, TrimSpace, Kept, Merged;
    chunks := [];
    ghost var contents: seq<string> := [];
    MergedNone();
    for k := 0 to |texts|
      invariant contents == Merged(Kept(texts[..k])) && |contents| == |chunks|
      invariant forall i :: 0 <= i < |chunks| ==> chunks[i] == Chunk(i, contents[i])
    {
      assert texts[..k + 1] == texts[..k] + [texts[k]];
      KeptSnoc(texts[..k], texts[k]);
      var text := TrimSpace(texts[k]);
      if text == "" {
        continue;
      }
      MergedSnoc(Kept(texts[..k]), text);
      contents := Merged(Kept(texts[..k + 1]));
      if Bytes(text) < MIN_CHUNK_BYTES && |chunks| > 0 {
        var last := |chunks| - 1;
        chunks := chunks[last := chunks[last].(content := chunks[last].content + PARAGRAPH + text)];
        continue;
      }
      chunks := chunks + [Chunk(|chunks|, text)];
    }
    assert Contents(chunks) == contents;
    assert texts[..|texts|] == texts;
  }

  // ---------------------------------------------------------------- what chunking keeps

  lemma VisibleNone()
    ensures Visible("") == "" && VisibleAll([]) == "" && Contents([]) == []
  {}

  lemma {:induction false} VisibleConcat(a: string, b: string)
    ensures Visible(a + b) == Visible(a) + Visible(b)
  {
    if b == "" {
      assert a + b == a;
    } else {
      var init, last := b[..|b| - 1], b[|b| - 1];
      assert (a + b)[..|a + b| - 1] == a + init && (a + b)[|a + b| - 1] == last;
      VisibleConcat(a, init);
    }
  }

  lemma {:induction false} Invisible(s: string)
    requires forall i :: 0 <= i < |s| ==> s[i] in SPACES
    ensures Visible(s) == ""
  {
    if s != "" { Invisible(s[..|s| - 1]); }
  }

  lemma SpaceStretch(s: string) returns (lo: nat, hi: nat)
    ensures lo <= hi <= |s| && TrimSpace(s) == s[lo..hi]
    ensures forall i :: 0 <= i < |s| && !(lo <= i < hi) ==> s[i] in SPACES
  {
    hide Trim;
    lo, hi := TrimStretch(s, SPACES);
  }

  lemma VisibleTrim(s: string)
    ensures Visible(TrimSpace(s)) == Visible(s)
  {
    hide Visible, TrimSpace;
    var lo, hi := SpaceStretch(s);
    var pre, mid, post := s[..lo], s[lo..hi], s[hi..];
    Invisible(pre);
    Invisible(post);
    VisibleConcat(pre, mid);
    VisibleConcat(pre + mid, post);
    assert s == pre + mid + post;
  }

  lemma {:induction false} VisibleAllConcat(a: seq<string>, b: seq<string>)
    ensures VisibleAll(a + b) == VisibleAll(a) + VisibleAll(b)
  {
    hide Visible;
    if b == [] {
      assert a + b == a;
    } else {
      var init, last := b[..|b| - 1], b[|b| - 1];
      assert (a + b)[..|a + b| - 1] == a + init && (a + b)[|a + b| - 1] == last;
      VisibleAllConcat(a, init);
    }
  }

  lemma VisibleOne(s: string)
    ensures VisibleAll([s]) == Visible(s)
  {
    hide Visible;
    assert VisibleAll([]) == "";
  }

  lemma {:induction false} VisibleJoin(parts: seq<string>, sep: string)
    requires forall i :: 0 <= i < |sep| ==> sep[i] in SPACES
    ensures Visible(Join(parts, sep)) == VisibleAll(parts)
    decreases |parts|
  {
    hide Visible;
    if |parts| == 0 {
      VisibleNone();
    } else if |parts| == 1 {
      VisibleOne(parts[0]);
      assert parts == [parts[0]];
    } else {
      var rest := Join(parts[1..], sep);
      VisibleJoin(parts[1..], sep);
      VisibleConcat(parts[0] + sep, rest);
      VisibleConcat(parts[0], sep);
      Invisible(sep);
      VisibleOne(parts[0]);
      VisibleAllConcat([parts[0]], parts[1..]);
      assert [parts[0]] + parts[1..] == parts;
      assert Visible(parts[0]) + "" == Visible(parts[0]);
    }
  }

  lemma {:induction false} VisibleKept(texts: seq<string>)
    ensures VisibleAll(Kept(texts)) == VisibleAll(texts)
  {
    hide Visible, TrimSpace;
    if texts != [] {
      var init, last := texts[..|texts| - 1], texts[|texts| - 1];
      VisibleKept(init);
      VisibleTrim(last);
      VisibleNone();
      VisibleOne(TrimSpace(last));
      VisibleAllConcat(Kept(init), [TrimSpace(last)]);
      assert Kept(init) + [] == Kept(init);
      assert VisibleAll(Kept(init)) + "" == VisibleAll(Kept(init));
    }
  }

  lemma VisibleParagraphs(content: string)
    ensures VisibleAll(Paragraphs(content)) == Visible(content)
  {
    hide Visible, VisibleAll, Kept;
    VisibleKept(Split(content, PARAGRAPH));
    VisibleJoin(Split(content, PARAGRAPH), PARAGRAPH);
  }

  lemma {:induction false} VisibleExpand(sections: seq<string>)
    ensures VisibleAll(Expand(sections)) == VisibleAll(sections)
  {
    hide Visible, Paragraphs, Bytes;
    if sections != [] {
      var init, last := sections[..|sections| - 1], sections[|sections| - 1];
      VisibleExpand(init);
      VisibleParagraphs(last);
      VisibleOne(last);
      VisibleAllConcat(Expand(init), Paragraphs(last));
      VisibleAllConcat(Expand(init), [last]);
    }
  }

  lemma VisibleParts(document: string, sections: seq<string>)
    requires Join(sections, LINE) == document
    ensures VisibleAll(Kept(Expand(if |sections| <= 1 then Paragraphs(document) else sections))) == Visible(document)
  {
    hide Visible, VisibleAll, Kept, Expand, Paragraphs, Join;
    VisibleJoin(sections, LINE);
    VisibleParagraphs(document);
    var parts := if |sections| <= 1 then Paragraphs(document) else sections;
    VisibleExpand(parts);
    VisibleKept(Expand(parts));
  }

  lemma TrimmedRejoins(document: string)
    requires TrimLeft(document, {'\n'}) == document
    ensures Join(Sections(Split(document, LINE)), LINE) == document
  {
    hide TrimLeft, Join, Sections, Split, SectionsAt;
    var _ := SectionsAreExact(document);
  }

  lemma VisibleTexts(document: string)
    requires TrimLeft(document, {'\n'}) == document
    ensures VisibleAll(Texts(document)) == Visible(document)
  {
    hide Visible, VisibleAll, Kept, Expand, Paragraphs, Join, Split, Sections, TrimLeft, Contains;
    TrimmedRejoins(document);
    VisibleParts(document, Sections(Split(document, LINE)));
  }

  lemma {:induction false} VisibleMerged(texts: seq<string>)
    ensures VisibleAll(Merged(texts)) == VisibleAll(texts)
  {
    hide Visible, Bytes;
    if texts != [] {
      var init, last := texts[..|texts| - 1], texts[|texts| - 1];
      VisibleMerged(init);
      var before := Merged(init);
      VisibleOne(last);
      VisibleAllConcat(before, [last]);
      if Bytes(last) < MIN_CHUNK_BYTES && before != [] {
        var n, joined := |before| - 1, before[|before| - 1] + PARAGRAPH + last;
        VisibleConcat(before[n] + PARAGRAPH, last);
        VisibleConcat(before[n], PARAGRAPH);
        Invisible(PARAGRAPH);
        assert Visible(before[n]) + "" == Visible(before[n]);
        VisibleOne(joined);
        VisibleAllConcat(before[..n], [joined]);
      }
    }
  }

  lemma {:induction false} BytesConcat(a: string, b: string)
    ensures Bytes(a + b) == Bytes(a) + Bytes(b)
  {
    if b == "" {
      assert a + b == a;
    } else {
      assert (a + b)[..|a + b| - 1] == a + b[..|b| - 1];
      BytesConcat(a, b[..|b| - 1]);
    }
  }

  lemma {:induction false} MergedSizes(texts: seq<string>)
    ensures forall i :: 0 < i < |Merged(texts)| ==> Bytes(Merged(texts)[i]) >= MIN_CHUNK_BYTES
  {
    hide Bytes;
    if texts != [] {
      var init, last := texts[..|texts| - 1], texts[|texts| - 1];
      MergedSizes(init);
      var before := Merged(init);
      if before != [] {
        var n := |before| - 1;
        BytesConcat(before[n] + PARAGRAPH, last);
        BytesConcat(before[n], PARAGRAPH);
      }
    }
  }

  /** The trimmed document does not begin with a line break, so nothing is cut off its front. */
  lemma TrimmedDocument(content: string)
    ensures TrimLeft(TrimSpace(content), {'\n'}) == TrimSpace(content)
  {}

  /** No text needs to be cut up any more: it is small or a single paragraph. */
  predicate Small(text: string) {
    Bytes(text) <= MAX_CHUNK_BYTES || !Contains(text, PARAGRAPH)
  }

  lemma SmallTrim(text: string)
    requires Small(text)
    ensures Small(TrimSpace(text))
  {
    hide Bytes, TrimSpace, Contains;
    var lo, hi := SpaceStretch(text);
    BytesConcat(text[..lo], text[lo..hi]);
    BytesConcat(text[..hi], text[hi..]);
    assert text[..lo] + text[lo..hi] == text[..hi] && text[..hi] + text[hi..] == text;
    if !Contains(text, PARAGRAPH) { StretchLacks(text, lo, hi, PARAGRAPH); }
  }

  lemma {:induction false} KeptSmall(texts: seq<string>)
    requires forall i :: 0 <= i < |texts| ==> Small(texts[i])
    ensures forall i :: 0 <= i < |Kept(texts)| ==> Small(Kept(texts)[i])
  {
    hide Small, TrimSpace;
    if texts != [] {
      KeptSmall(texts[..|texts| - 1]);
      SmallTrim(texts[|texts| - 1]);
    }
  }

  lemma ParagraphsSmall(content: string)
    ensures forall i :: 0 <= i < |Paragraphs(content)| ==> Small(Paragraphs(content)[i])
  {
    hide Kept, Contains, Bytes;
    var raw := Split(content, PARAGRAPH);
    forall i | 0 <= i < |raw| ensures Small(raw[i]) { assert raw[i] in raw; }
    KeptSmall(raw);
  }

  lemma {:induction false} ExpandSmall(sections: seq<string>)
    ensures forall i :: 0 <= i < |Expand(sections)| ==> Small(Expand(sections)[i])
  {
    hide Paragraphs, Contains, Bytes;
    if sections != [] {
      ExpandSmall(sections[..|sections| - 1]);
      ParagraphsSmall(sections[|sections| - 1]);
    }
  }

  /** A text over 2000 bytes is a single paragraph: every larger section has been cut up. */
  lemma TextsAreSmall(document: string)
    ensures forall i :: 0 <= i < |Texts(document)| ==> Small(Texts(document)[i])
  {
    hide Small, Expand, Kept, Sections, Split, Paragraphs;
    var sections := Sections(Split(document, LINE));
    var parts := if |sections| <= 1 then Paragraphs(document) else sections;
    ExpandSmall(parts);
    KeptSmall(Expand(parts));
  }

  /** The chunks hold the visible characters of the document, each once and in order, and every chunk
      but the first has at least 20 bytes. */
  lemma ChunksKeepText(content: string)
    ensures VisibleAll(ChunksOf(content)) == Visible(content)
    ensures forall i :: 0 < i < |ChunksOf(content)| ==> Bytes(ChunksOf(content)[i]) >= MIN_CHUNK_BYTES
  {
    hide TrimSpace, Bytes, Visible, VisibleAll, Texts, Merged;
    var document := TrimSpace(content);
    VisibleTrim(content);
    VisibleNone();
    if document != "" {
      TrimmedDocument(content);
      VisibleTexts(document);
      VisibleMerged(Texts(document));
      MergedSizes(Texts(document));
    }
  }
}
