/** The live file of a rolling log: what `persistToFile` prints, what `parseRollingLogFile` reads
    back, and which entries survive the trip. */
module LogFormat {
  import opened Text

  const SUMMARIES_OPEN := "<nupi:rolling-log:summaries>"
  const SUMMARIES_CLOSE := "</nupi:rolling-log:summaries>"
  const RAW_OPEN := "<nupi:rolling-log:raw>"
  const RAW_CLOSE := "</nupi:rolling-log:raw>"

  const SUMMARY_JOIN := "\n\n"
  const RAW_JOIN := "\n\n\n"
  const HEADER := "### "
  const SUMMARY_SPLIT := "\n\n### "
  const NEWLINES: set<char> := {'\n'}

  predicate IsTag(tag: string) {
    tag == SUMMARIES_OPEN || tag == SUMMARIES_CLOSE || tag == RAW_OPEN || tag == RAW_CLOSE
  }

  /** `containsFormatDelimiters`. */
  predicate HasDelimiters(text: string)
    ensures HasDelimiters(text) <==> exists tag :: IsTag(tag) && Contains(text, tag)
  {
    var r := Contains(text, SUMMARIES_OPEN) || Contains(text, SUMMARIES_CLOSE)
      || Contains(text, RAW_OPEN) || Contains(text, RAW_CLOSE);
    assert IsTag(SUMMARIES_OPEN) && IsTag(SUMMARIES_CLOSE) && IsTag(RAW_OPEN) && IsTag(RAW_CLOSE);
    r
  }

  /** What a raw entry is once AppendRaw has stored it. */
  predicate RawEntry(e: string) {
    e != "" && Trimmed(e, NEWLINES) && !Contains(e, RAW_JOIN) && !HasDelimiters(e)
  }

  /** What a summary is once AppendSummary has stored it. */
  predicate SummaryEntry(e: string) {
    Trimmed(e, NEWLINES) && HasPrefix(e, HEADER) && !Contains(e, SUMMARY_SPLIT) && !HasDelimiters(e)
  }

  predicate RawEntries(raw: seq<string>) { forall k :: 0 <= k < |raw| ==> RawEntry(raw[k]) }

  predicate SummaryEntries(summaries: seq<string>) { forall k :: 0 <= k < |summaries| ==> SummaryEntry(summaries[k]) }

  /** The text after the header is there and does not start on the next line. */
  predicate BodyOnHeaderLine(summary: string) {
    |summary| > |HEADER| && summary[|HEADER|] != '\n'
  }

  /** Every summary but the first has its text on the header line. */
  predicate RoundTrips(summaries: seq<string>) {
    forall k :: 1 <= k < |summaries| ==> BodyOnHeaderLine(summaries[k])
  }

  // ---------------------------------------------------------------- printing and parsing

  function Section(parts: seq<string>, sep: string): string {
    "\n\n" + (if |parts| > 0 then Join(parts, sep) + "\n" else "") + "\n"
  }

  function Print(summaries: seq<string>, raw: seq<string>): string {
    SUMMARIES_OPEN + Section(summaries, SUMMARY_JOIN) + SUMMARIES_CLOSE + "\n"
    + RAW_OPEN + Section(raw, RAW_JOIN) + RAW_CLOSE + "\n"
  }

  /** `extractTagContent`. */
  function ExtractTag(content: string, open: string, close: string): string {
    var o := Index(content, open);
    if o < 0 then "" else
      var rest := content[o + |open|..];
      var c := Index(rest, close);
      if c < 0 then "" else rest[..c]
  }

  /** What `parseSummaries` keeps of one piece of a section. */
  function KeepSummary(part: string, first: bool): seq<string> {
    var t := Trim(part, NEWLINES);
    if t == "" then [] else if first then [t] else [HEADER + t]
  }

  function KeepSummaries(parts: seq<string>, first: bool): seq<string> {
    if parts == [] then [] else KeepSummary(parts[0], first) + KeepSummaries(parts[1..], false)
  }

  function SummariesOf(section: string): seq<string> {
    if section == "" then [] else KeepSummaries(Split(section, SUMMARY_SPLIT), true)
  }

  function KeepRawEntry(part: string): seq<string> {
    var t := Trim(part, NEWLINES);
    if t == "" then [] else [t]
  }

  function KeepRaw(parts: seq<string>): seq<string> {
    if parts == [] then [] else KeepRawEntry(parts[0]) + KeepRaw(parts[1..])
  }

  function RawOf(section: string): seq<string> {
    if section == "" then [] else KeepRaw(Split(section, RAW_JOIN))
  }

  /** `parseRollingLogFile`. */
  function ParseFile(content: string): (seq<string>, seq<string>) {
    (SummariesOf(Trim(ExtractTag(content, SUMMARIES_OPEN, SUMMARIES_CLOSE), NEWLINES)),
     RawOf(Trim(ExtractTag(content, RAW_OPEN, RAW_CLOSE), NEWLINES)))
  }

  lemma {:induction false} KeepSummariesAppend(parts: seq<string>, last: string, first: bool)
    ensures KeepSummaries(parts + [last], first)
         == KeepSummaries(parts, first) + KeepSummary(last, first && parts == [])
  {
    hide KeepSummary;
    if parts == [] {
      assert parts + [last] == [last];
    } else {
      assert (parts + [last])[1..] == parts[1..] + [last];
      KeepSummariesAppend(parts[1..], last, false);
    }
  }

  lemma {:induction false} KeepRawAppend(parts: seq<string>, last: string)
    ensures KeepRaw(parts + [last]) == KeepRaw(parts) + KeepRawEntry(last)
  {
    hide KeepRawEntry;
    if parts == [] {
      assert parts + [last] == [last];
    } else {
      assert (parts + [last])[1..] == parts[1..] + [last];
      KeepRawAppend(parts[1..], last);
    }
  }

  lemma KeepNothing()
    ensures KeepSummaries([], true) == [] && KeepRaw([]) == []
  {}

  method ParseSummaries(section: string) returns (results: seq<string>)
    ensures results == SummariesOf(section)
  {
    hide Split, Trim, KeepSummaries, Contains;
    results := [];
    if section == "" { return; }
    var parts := Split(section, SUMMARY_SPLIT);
    KeepNothing();
    for i := 0 to |parts|
      invariant results == KeepSummaries(parts[..i], true)
    {
      assert parts[..i + 1] == parts[..i] + [parts[i]];
      KeepSummariesAppend(parts[..i], parts[i], true);
      var trimmed := Trim(parts[i], NEWLINES);
      if trimmed == "" { continue; }
      if i > 0 {
        trimmed := HEADER + trimmed;
      }
      results := results + [trimmed];
    }
    assert parts[..|parts|] == parts;
  }

  method ParseRawTail(section: string) returns (results: seq<string>)
    ensures results == RawOf(section)
  {
    hide Split, Trim, KeepRaw, Contains;
    results := [];
    if section == "" { return; }
    var parts := Split(section, RAW_JOIN);
    KeepNothing();
    for i := 0 to |parts|
      invariant results == KeepRaw(parts[..i])
    {
      assert parts[..i + 1] == parts[..i] + [parts[i]];
      KeepRawAppend(parts[..i], parts[i]);
      var trimmed := Trim(parts[i], NEWLINES);
      if trimmed != "" {
        results := results + [trimmed];
      }
    }
    assert parts[..|parts|] == parts;
  }

  method ParseRollingLogFile(content: string) returns (summaries: seq<string>, rawTail: seq<string>)
    ensures (summaries, rawTail) == ParseFile(content)
  {
    hide Trim, ExtractTag, SummariesOf, RawOf;
    var summariesSection := ExtractTag(content, SUMMARIES_OPEN, SUMMARIES_CLOSE);
    var rawSection := ExtractTag(content, RAW_OPEN, RAW_CLOSE);
    summaries := ParseSummaries(Trim(summariesSection, NEWLINES));
    rawTail := ParseRawTail(Trim(rawSection, NEWLINES));
  }

  // ---------------------------------------------------------------- cutting out the sections

  /** The characters of a tag: nothing in it can begin another delimiter. */
  predicate TagLike(tag: string) {
    |tag| > 20 && tag[0] == '<'
    && forall i :: 0 <= i < |tag| ==> tag[i] != '\n' && tag[i] != '#' && tag[i] != ' ' && (i > 0 ==> tag[i] != '<')
  }

  lemma SummariesOpenChars()
    ensures TagLike(SUMMARIES_OPEN) && SUMMARIES_OPEN[1] == 'n' && SUMMARIES_OPEN[18] == 's'
  {}

  lemma SummariesCloseChars()
    ensures TagLike(SUMMARIES_CLOSE) && SUMMARIES_CLOSE[1] == '/' && SUMMARIES_CLOSE[19] == 's'
  {}

  lemma RawOpenChars()
    ensures TagLike(RAW_OPEN) && RAW_OPEN[1] == 'n' && RAW_OPEN[18] == 'r'
  {}

  lemma RawCloseChars()
    ensures TagLike(RAW_CLOSE) && RAW_CLOSE[1] == '/' && RAW_CLOSE[19] == 'r'
  {}

  lemma TagChars(tag: string)
    requires IsTag(tag)
    ensures |tag| > 20 && tag[0] == '<' && '\n' !in tag && '#' !in tag && ' ' !in tag
  {
    if tag == SUMMARIES_OPEN {
      SummariesOpenChars();
    } else if tag == SUMMARIES_CLOSE {
      SummariesCloseChars();
    } else if tag == RAW_OPEN {
      RawOpenChars();
    } else {
      RawCloseChars();
    }
  }

  lemma TagsDiffer(tag: string, other: string) returns (k: nat)
    requires IsTag(tag) && IsTag(other) && tag != other
    ensures TagLike(tag) && TagLike(other) && k < |tag| && k < |other| && tag[k] != other[k]
  {
    hide TagLike;
    SummariesOpenChars();
    SummariesCloseChars();
    RawOpenChars();
    RawCloseChars();
    var closing, otherClosing := tag == SUMMARIES_CLOSE || tag == RAW_CLOSE, other == SUMMARIES_CLOSE || other == RAW_CLOSE;
    LongTags();
    k := if closing != otherClosing then 1 else if closing then 19 else 18;
  }

  lemma LongTags()
    ensures forall tag :: TagLike(tag) ==> |tag| > 20
  {}

  lemma TagFacts(tag: string)
    requires IsTag(tag)
    ensures |tag| > 20 && tag[0] == '<' && '\n' !in tag && '#' !in tag && ' ' !in tag
    ensures !Contains("\n\n", tag) && !Contains("\n", tag) && !Contains("\n\n\n", tag)
  {
    hide IsTag, Contains;
    TagChars(tag);
    LacksFirst("\n", tag);
    LacksFirst("\n\n", tag);
    LacksFirst("\n\n\n", tag);
  }

  /** A tag at the start of a line is found there, if nothing before it is the tag. */
  lemma TagAt(a: string, tag: string, b: string)
    requires |tag| > 0 && '\n' !in tag && !Contains(a, tag)
    requires a == "" || a[|a| - 1] == '\n'
    ensures Index(a + tag + b, tag) == |a|
  {
    var s := a + tag + b;
    forall i | 0 <= i < |a| ensures !OccursAt(s, tag, i) {
      if i + |tag| <= |a| {
        assert s[i..i + |tag|] == a[i..i + |tag|];
        assert !OccursAt(a, tag, i);
      } else if i + |tag| <= |s| {
        assert s[i..i + |tag|][|a| - 1 - i] == '\n';
      }
    }
    assert OccursAt(s, tag, |a|);
  }

  lemma ExtractBetween(a: string, open: string, body: string, close: string, b: string)
    requires |open| > 0 && '\n' !in open && |close| > 0 && '\n' !in close
    requires !Contains(a, open) && (a == "" || a[|a| - 1] == '\n')
    requires !Contains(body, close) && body != "" && body[|body| - 1] == '\n'
    ensures ExtractTag(a + open + body + close + b, open, close) == body
  {
    hide Contains, Index;
    var content, rest := a + open + body + close + b, body + close + b;
    assert content == a + open + rest;
    TagAt(a, open, rest);
    assert content[|a| + |open|..] == rest;
    TagAt(body, close, b);
    assert rest[..|body|] == body;
  }

  lemma SectionLacks(parts: seq<string>, sep: string, tag: string)
    requires IsTag(tag) && (sep == SUMMARY_JOIN || sep == RAW_JOIN)
    requires forall p <- parts :: !HasDelimiters(p)
    ensures !Contains(Section(parts, sep), tag)
  {
    TagFacts(tag);
    if |parts| > 0 {
      JoinLacks(parts, sep, tag);
      LineBreakSeparates(Join(parts, sep), "\n", tag);
      LineBreakSeparates("\n\n", Join(parts, sep) + "\n", tag);
      LineBreakSeparates("\n\n" + (Join(parts, sep) + "\n"), "\n", tag);
    } else {
      assert Section(parts, sep) == "\n\n\n";
    }
  }

  /** A pattern whose first character occurs only at the start of a text can only be found there. */
  lemma OnlyAtStart(s: string, sub: string, k: nat)
    requires |s| > 0 && k < |sub| && k < |s| && sub[0] !in s[1..] && sub[k] != s[k]
    ensures !Contains(s, sub)
  {
    forall i ensures !OccursAt(s, sub, i) {
      if 0 <= i && i + |sub| <= |s| {
        assert s[i..i + |sub|][0] == s[i] && s[i..i + |sub|][k] == s[i + k];
        if i > 0 { assert s[i] == s[1..][i - 1]; }
      }
    }
  }

  lemma OpeningTagsDiffer()
    ensures !Contains(SUMMARIES_OPEN, RAW_OPEN) && !Contains(SUMMARIES_CLOSE, RAW_OPEN)
  {
    hide Contains;
    SummariesOpenChars();
    SummariesCloseChars();
    RawOpenChars();
    OnlyAtStart(SUMMARIES_OPEN, RAW_OPEN, 18);
    OnlyAtStart(SUMMARIES_CLOSE, RAW_OPEN, 1);
  }

  /** Two tagged sections laid out on lines of their own are both found. */
  lemma CutSections(open1: string, body1: string, close1: string, open2: string, body2: string, close2: string)
    requires |open1| > 0 && |close1| > 0 && |open2| > 0 && |close2| > 0
    requires '\n' !in open1 && '\n' !in close1 && '\n' !in open2 && '\n' !in close2
    requires body1 != "" && body1[0] == '\n' && body1[|body1| - 1] == '\n'
    requires body2 != "" && body2[|body2| - 1] == '\n'
    requires !Contains(body1, close1) && !Contains(body1, open2) && !Contains(body2, close2)
    requires !Contains(open1, open2) && !Contains(close1, open2) && !Contains("\n", open2)
    ensures var content := open1 + body1 + close1 + "\n" + open2 + body2 + close2 + "\n";
            ExtractTag(content, open1, close1) == body1 && ExtractTag(content, open2, close2) == body2
  {
    var content := open1 + body1 + close1 + "\n" + open2 + body2 + close2 + "\n";
    var tail := "\n" + open2 + body2 + close2 + "\n";
    assert content == "" + open1 + body1 + close1 + tail;
    ExtractBetween("", open1, body1, close1, tail);
    var head := open1 + body1 + close1 + "\n";
    LineBreakSeparates(open1, body1, open2);
    LineBreakSeparates(open1 + body1, close1, open2);
    LineBreakSeparates(open1 + body1 + close1, "\n", open2);
    ExtractBetween(head, open2, body2, close2, "\n");
  }

  /** Both sections of a printed file come back untouched. */
  lemma ExtractSections(summaries: seq<string>, raw: seq<string>)
    requires SummaryEntries(summaries) && RawEntries(raw)
    ensures ExtractTag(Print(summaries, raw), SUMMARIES_OPEN, SUMMARIES_CLOSE) == Section(summaries, SUMMARY_JOIN)
    ensures ExtractTag(Print(summaries, raw), RAW_OPEN, RAW_CLOSE) == Section(raw, RAW_JOIN)
  {
    hide HasDelimiters, Contains;
    SectionLacks(summaries, SUMMARY_JOIN, SUMMARIES_CLOSE);
    SectionLacks(summaries, SUMMARY_JOIN, RAW_OPEN);
    SectionLacks(raw, RAW_JOIN, RAW_CLOSE);
    TagFacts(SUMMARIES_OPEN);
    TagFacts(SUMMARIES_CLOSE);
    TagFacts(RAW_OPEN);
    TagFacts(RAW_CLOSE);
    OpeningTagsDiffer();
    CutSections(SUMMARIES_OPEN, Section(summaries, SUMMARY_JOIN), SUMMARIES_CLOSE,
                RAW_OPEN, Section(raw, RAW_JOIN), RAW_CLOSE);
  }

  lemma {:induction false} JoinTrimmed(parts: seq<string>, sep: string)
    requires |parts| >= 1 && forall k :: 0 <= k < |parts| ==> parts[k] != "" && Trimmed(parts[k], NEWLINES)
    ensures Join(parts, sep) != "" && Trimmed(Join(parts, sep), NEWLINES)
  {
    if |parts| > 1 { JoinTrimmed(parts[1..], sep); }
  }

  lemma TrimSection(parts: seq<string>, sep: string)
    requires forall k :: 0 <= k < |parts| ==> parts[k] != "" && Trimmed(parts[k], NEWLINES)
    ensures Trim(Section(parts, sep), NEWLINES) == Join(parts, sep)
  {
    if |parts| == 0 {
      TrimAround("\n\n", "", "\n", NEWLINES);
    } else {
      JoinTrimmed(parts, sep);
      assert Section(parts, sep) == "\n\n" + Join(parts, sep) + "\n\n";
      TrimAround("\n\n", Join(parts, sep), "\n\n", NEWLINES);
    }
  }

  // ---------------------------------------------------------------- splitting the sections

  /** A separator whose newlines all come first cannot begin inside text that neither holds it nor
      ends in a newline. */
  lemma NewlineSeparator(p: string, sep: string)
    requires |sep| > 0 && sep[0] == '\n'
    requires forall j :: 1 <= j < |sep| && sep[j] == '\n' ==> sep[j - 1] == '\n'
    requires !Contains(p, sep) && (p == "" || p[|p| - 1] != '\n')
    ensures Separates(p, sep)
  {
    forall i | 0 <= i < |p| ensures !OccursAt(p + sep, sep, i) {
      var w := (p + sep)[i..i + |sep|];
      if i + |sep| <= |p| {
        assert w == p[i..i + |sep|];
        assert !OccursAt(p, sep, i);
      } else {
        assert w[|p| - i] == sep[0];
        assert w[|p| - i - 1] == p[|p| - 1];
      }
    }
  }

  lemma {:induction false} KeepRawAll(raw: seq<string>)
    requires RawEntries(raw)
    ensures KeepRaw(raw) == raw
  {
    hide HasDelimiters, Contains, Index;
    if raw != [] {
      TrimAround("", raw[0], "", NEWLINES);
      assert "" + raw[0] + "" == raw[0];
      KeepRawAll(raw[1..]);
    }
  }

  lemma RawEntrySeparates(e: string)
    requires RawEntry(e)
    ensures e != "" && Trimmed(e, NEWLINES) && Separates(e, RAW_JOIN) && !Contains(e, RAW_JOIN)
  {
    hide HasDelimiters, Contains;
    NewlineSeparator(e, RAW_JOIN);
  }

  lemma RawSectionReadsBack(raw: seq<string>)
    requires RawEntries(raw)
    ensures RawOf(Join(raw, RAW_JOIN)) == raw
  {
    hide Contains, RawEntry, Separates, Split, Trimmed;
    if raw != [] {
      forall k | 0 <= k < |raw| ensures raw[k] != "" && Trimmed(raw[k], NEWLINES) { RawEntrySeparates(raw[k]); }
      JoinTrimmed(raw, RAW_JOIN);
      forall p | p in raw[..|raw| - 1] ensures Separates(p, RAW_JOIN) { RawEntrySeparates(p); }
      RawEntrySeparates(raw[|raw| - 1]);
      SplitJoin(raw, RAW_JOIN);
      KeepRawAll(raw);
    }
  }

  /** The texts after the headers. */
  function Bodies(summaries: seq<string>): (bodies: seq<string>)
    requires SummaryEntries(summaries)
    ensures |bodies| == |summaries|
    ensures forall k :: 0 <= k < |bodies| ==> bodies[k] == summaries[k][|HEADER|..]
  {
    seq(|summaries|, k requires 0 <= k < |summaries| => summaries[k][|HEADER|..])
  }

  lemma JoinPullsPrefix(pre: string, head: string, tail: seq<string>, sep: string)
    ensures Join([pre + head] + tail, sep) == pre + Join([head] + tail, sep)
  {
    assert ([pre + head] + tail)[1..] == tail == ([head] + tail)[1..];
    if tail != [] {
      assert pre + head + sep + Join(tail, sep) == pre + (head + sep + Join(tail, sep));
    }
  }

  lemma JoinCons(first: string, rest: seq<string>, sep: string)
    ensures Join([first], sep) == first
    ensures rest != [] ==> Join([first] + rest, sep) == first + sep + Join(rest, sep)
  {
    assert ([first] + rest)[1..] == rest;
  }

  lemma HeaderThenBody(e: string)
    requires SummaryEntry(e)
    ensures |e| >= |HEADER| && e == HEADER + e[|HEADER|..]
  {
    hide HasDelimiters, Contains;
  }

  lemma HeaderAfterJoin(first: string, more: string)
    ensures first + SUMMARY_JOIN + (HEADER + more) == first + SUMMARY_SPLIT + more
  {
    assert SUMMARY_JOIN + HEADER == SUMMARY_SPLIT;
  }

  lemma BodiesCons(summaries: seq<string>)
    requires SummaryEntries(summaries) && summaries != [] && |summaries[0]| >= |HEADER|
    ensures var body, more := summaries[0][|HEADER|..], summaries[1..];
            && summaries[0] == HEADER + body && summaries == [summaries[0]] + more
            && Bodies(summaries) == [body] + Bodies(more)
  {
    hide SummaryEntry;
    HeaderThenBody(summaries[0]);
  }

  lemma JoinStep(first: string, second: string, more: seq<string>, body: string, bodies: seq<string>)
    requires second == HEADER + body
    requires Join([body] + more, SUMMARY_JOIN) == Join([body] + bodies, SUMMARY_SPLIT)
    ensures Join([first] + ([second] + more), SUMMARY_JOIN) == Join([first] + ([body] + bodies), SUMMARY_SPLIT)
  {
    hide Join;
    JoinCons(first, [second] + more, SUMMARY_JOIN);
    JoinCons(first, [body] + bodies, SUMMARY_SPLIT);
    JoinPullsPrefix(HEADER, body, more, SUMMARY_JOIN);
    HeaderAfterJoin(first, Join([body] + bodies, SUMMARY_SPLIT));
  }

  /** Joining summaries with a blank line is joining their bodies with the header separator. */
  lemma {:induction false} JoinByBodies(first: string, rest: seq<string>)
    requires SummaryEntries(rest)
    ensures Join([first] + rest, SUMMARY_JOIN) == Join([first] + Bodies(rest), SUMMARY_SPLIT)
    decreases |rest|
  {
    hide SummaryEntry, Join, Bodies;
    if rest == [] {
      assert [first] + rest == [first] + Bodies(rest) == [first];
      JoinCons(first, rest, SUMMARY_JOIN);
      JoinCons(first, rest, SUMMARY_SPLIT);
    } else {
      HeaderThenBody(rest[0]);
      var body, more := rest[0][|HEADER|..], rest[1..];
      BodiesCons(rest);
      JoinByBodies(body, more);
      JoinStep(first, rest[0], more, body, Bodies(more));
    }
  }

  /** What summaries after the first become when the file is read back: leading newlines of the
      body are lost, and a summary with nothing else is lost with them. */
  function ReloadedTail(summaries: seq<string>): seq<string>
    requires SummaryEntries(summaries)
  {
    if summaries == [] then [] else
      KeepSummary(summaries[0][|HEADER|..], false) + ReloadedTail(summaries[1..])
  }

  function Reloaded(summaries: seq<string>): seq<string>
    requires SummaryEntries(summaries)
  {
    if summaries == [] then [] else [summaries[0]] + ReloadedTail(summaries[1..])
  }

  lemma {:induction false} KeepBodies(summaries: seq<string>)
    requires SummaryEntries(summaries)
    ensures KeepSummaries(Bodies(summaries), false) == ReloadedTail(summaries)
  {
    hide HasDelimiters, Contains, Index;
    if summaries != [] {
      assert Bodies(summaries)[1..] == Bodies(summaries[1..]);
      KeepBodies(summaries[1..]);
    }
  }

  lemma BodySeparates(e: string)
    requires SummaryEntry(e)
    ensures Separates(e, SUMMARY_SPLIT) && Separates(e[|HEADER|..], SUMMARY_SPLIT)
    ensures !Contains(e[|HEADER|..], SUMMARY_SPLIT)
  {
    hide HasDelimiters, Contains;
    StretchLacks(e, |HEADER|, |e|, SUMMARY_SPLIT);
    NewlineSeparator(e, SUMMARY_SPLIT);
    var body := e[|HEADER|..];
    assert e[|HEADER|..|e|] == body;
    assert body != "" ==> body[|body| - 1] == e[|e| - 1];
    NewlineSeparator(body, SUMMARY_SPLIT);
  }

  lemma BodiesSplitBack(first: string, rest: seq<string>)
    requires SummaryEntry(first) && SummaryEntries(rest)
    ensures Split(Join([first] + Bodies(rest), SUMMARY_SPLIT), SUMMARY_SPLIT) == [first] + Bodies(rest)
  {
    hide Separates, Contains, HasDelimiters;
    var pieces := [first] + Bodies(rest);
    forall k | 0 <= k < |pieces| ensures Separates(pieces[k], SUMMARY_SPLIT) && !Contains(pieces[k], SUMMARY_SPLIT) {
      BodySeparates(if k == 0 then first else rest[k - 1]);
    }
    SplitJoin(pieces, SUMMARY_SPLIT);
  }

  lemma SummarySectionReadsBack(summaries: seq<string>)
    requires SummaryEntries(summaries)
    ensures SummariesOf(Join(summaries, SUMMARY_JOIN)) == Reloaded(summaries)
  {
    hide Separates, Contains, HasDelimiters, Split;
    if summaries != [] {
      var first, rest := summaries[0], summaries[1..];
      assert summaries == [first] + rest;
      JoinTrimmed(summaries, SUMMARY_JOIN);
      JoinByBodies(first, rest);
      BodiesSplitBack(first, rest);
      TrimAround("", first, "", NEWLINES);
      assert "" + first + "" == first;
      assert ([first] + Bodies(rest))[1..] == Bodies(rest);
      KeepBodies(rest);
    }
  }

  // ---------------------------------------------------------------- the round trip

  /** Reading back what was printed: raw entries always return, summaries as `Reloaded` says. */
  lemma ParsePrinted(summaries: seq<string>, raw: seq<string>)
    requires SummaryEntries(summaries) && RawEntries(raw)
    ensures ParseFile(Print(summaries, raw)) == (Reloaded(summaries), raw)
  {
    ExtractSections(summaries, raw);
    TrimSection(summaries, SUMMARY_JOIN);
    TrimSection(raw, RAW_JOIN);
    SummarySectionReadsBack(summaries);
    RawSectionReadsBack(raw);
  }

  /** Dropping text after a prefix brings in no pattern that cannot begin in the prefix. */
  lemma ShortenedLacks(pre: string, e: string, k: nat, sub: string)
    requires |sub| > 0 && sub[0] !in pre && k <= |e| && !Contains(e, sub)
    ensures !Contains(pre + e[k..], sub)
  {
    var f := pre + e[k..];
    forall i | 0 <= i && i + |sub| <= |f| ensures !OccursAt(f, sub, i) {
      if i < |pre| {
        assert f[i..i + |sub|][0] == pre[i];
      } else {
        var j := k + i - |pre|;
        var v := e[j..j + |sub|];
        assert f[i..i + |sub|] == v;
        assert !OccursAt(e, sub, j);
      }
    }
  }

  lemma ShortenedSummary(e: string, k: nat)
    requires SummaryEntry(e) && |HEADER| <= k < |e| && e[k] != '\n'
    ensures SummaryEntry(HEADER + e[k..]) && BodyOnHeaderLine(HEADER + e[k..])
  {
    hide Contains;
    var f := HEADER + e[k..];
    ShortenedLacks(HEADER, e, k, SUMMARY_SPLIT);
    ShortenedLacks(HEADER, e, k, SUMMARIES_OPEN);
    ShortenedLacks(HEADER, e, k, SUMMARIES_CLOSE);
    ShortenedLacks(HEADER, e, k, RAW_OPEN);
    ShortenedLacks(HEADER, e, k, RAW_CLOSE);
    assert f[|f| - 1] == e[|e| - 1];
  }

  lemma TrimUnfinishedLine(body: string)
    requires body != "" && body[|body| - 1] != '\n'
    ensures var t := Trim(body, NEWLINES);
            t != "" && |t| <= |body| && t == body[|body| - |t|..] && t[0] != '\n' && (body[0] != '\n' <==> t == body)
  {
    var left := TrimLeft(body, NEWLINES);
    assert left != "" && left[|left| - 1] == body[|body| - 1];
    NothingToTrim(left);
    hide TrimRight;
    if body[0] == '\n' { assert |left| < |body|; }
  }

  lemma NothingToTrim(s: string)
    requires s != "" && s[|s| - 1] != '\n'
    ensures TrimRight(s, NEWLINES) == s
  {}

  lemma TrimBody(e: string)
    requires SummaryEntry(e)
    ensures |e| >= |HEADER|
    ensures var kept := KeepSummary(e[|HEADER|..], false);
            && |kept| <= 1
            && (BodyOnHeaderLine(e) ==> kept == [e])
            && (!BodyOnHeaderLine(e) && kept != [] ==> |kept[0]| < |e|)
            && (kept != [] ==> SummaryEntry(kept[0]) && BodyOnHeaderLine(kept[0]))
  {
    hide HasDelimiters, Contains, Trim;
    var body := e[|HEADER|..];
    if body == "" {
      assert Trim(body, NEWLINES) == "";
    } else {
      var t := Trim(body, NEWLINES);
      assert body[|body| - 1] == e[|e| - 1];
      TrimUnfinishedLine(body);
      var k := |e| - |t|;
      assert t == e[k..] && e == HEADER + body;
      ShortenedSummary(e, k);
    }
  }

  lemma {:induction false} ReloadedTailExact(summaries: seq<string>)
    requires SummaryEntries(summaries)
    ensures SummaryEntries(ReloadedTail(summaries))
    ensures forall e <- ReloadedTail(summaries) :: BodyOnHeaderLine(e)
    ensures (forall e <- summaries :: BodyOnHeaderLine(e)) ==> ReloadedTail(summaries) == summaries
    ensures (exists e <- summaries :: !BodyOnHeaderLine(e)) ==> TotalLength(ReloadedTail(summaries)) < TotalLength(summaries)
    ensures TotalLength(ReloadedTail(summaries)) <= TotalLength(summaries)
  {
    hide KeepSummary, SummaryEntry, BodyOnHeaderLine;
    if summaries != [] {
      TrimBody(summaries[0]);
      ReloadedTailExact(summaries[1..]);
      var head := KeepSummary(summaries[0][|HEADER|..], false);
      TotalLengthConcat(head, ReloadedTail(summaries[1..]));
      assert summaries == [summaries[0]] + summaries[1..];
    }
  }

  /** Printing then parsing gives the very same lists exactly when every summary but the first has
      text on its header line. */
  lemma RoundTrip(summaries: seq<string>, raw: seq<string>)
    requires SummaryEntries(summaries) && RawEntries(raw)
    ensures ParseFile(Print(summaries, raw)) == (summaries, raw) <==> RoundTrips(summaries)
  {
    hide KeepSummary, SummaryEntry, BodyOnHeaderLine, ParseFile, Print, RawEntries;
    ParsePrinted(summaries, raw);
    if summaries != [] {
      var rest := summaries[1..];
      ReloadedTailExact(rest);
      assert RoundTrips(summaries) <==> forall e <- rest :: BodyOnHeaderLine(e) by {
        assert forall k :: 1 <= k < |summaries| ==> summaries[k] == rest[k - 1];
        assert forall k :: 0 <= k < |rest| ==> rest[k] == summaries[k + 1];
      }
      assert summaries == [summaries[0]] + rest;
    }
  }

  /** One reload settles the summaries: what it returns is accepted, and reads back unchanged. */
  lemma ReloadSettles(summaries: seq<string>)
    requires SummaryEntries(summaries)
    ensures SummaryEntries(Reloaded(summaries)) && RoundTrips(Reloaded(summaries))
    ensures Reloaded(Reloaded(summaries)) == Reloaded(summaries)
    ensures RoundTrips(summaries) ==> Reloaded(summaries) == summaries
  {
    hide SummaryEntry, BodyOnHeaderLine, ReloadedTail;
    if summaries != [] {
      var first, rest := summaries[0], summaries[1..];
      var tail := ReloadedTail(rest);
      ReloadedTailExact(rest);
      ReloadedTailExact(tail);
      assert forall k :: 0 <= k < |tail| ==> tail[k] in tail;
      ReloadedCons(first, tail);
      if RoundTrips(summaries) {
        assert forall k :: 0 <= k < |rest| ==> rest[k] == summaries[k + 1];
        assert forall e <- rest :: BodyOnHeaderLine(e);
        assert summaries == [first] + rest;
      }
    }
  }

  lemma ReloadedCons(first: string, tail: seq<string>)
    requires SummaryEntry(first) && SummaryEntries(tail)
    ensures SummaryEntries([first] + tail) && Reloaded([first] + tail) == [first] + ReloadedTail(tail)
  {
    hide SummaryEntry, ReloadedTail;
    assert ([first] + tail)[1..] == tail;
  }

  lemma HeaderOnly(e: string)
    requires Trimmed(e, NEWLINES) && HasPrefix(e, HEADER) && '<' !in e
    requires forall i :: 1 <= i < |e| ==> e[i - 1] != '\n' || e[i] != '\n'
    ensures SummaryEntry(e)
  {
    hide Contains;
    forall i | 0 <= i && i + |SUMMARY_SPLIT| <= |e| ensures !OccursAt(e, SUMMARY_SPLIT, i) {
      var w := e[i..i + |SUMMARY_SPLIT|];
      assert w[0] == e[i] && w[1] == e[i + 1];
    }
    LacksFirst(e, SUMMARIES_OPEN);
    LacksFirst(e, SUMMARIES_CLOSE);
    LacksFirst(e, RAW_OPEN);
    LacksFirst(e, RAW_CLOSE);
  }

  lemma EmptyPiece()
    ensures KeepSummary("", false) == []
  {}

  lemma LatePiece(b: string)
    requires b != "" && Trimmed(b, NEWLINES)
    ensures KeepSummary("\n" + b, false) == [HEADER + b]
  {
    TrimAround("\n", b, "", NEWLINES);
    assert "\n" + b + "" == "\n" + b;
  }

  /** Two summaries that AppendSummary accepts and a restart changes: the bare header is lost, and
      the body that begins on the next line moves up. */
  lemma AcceptedButNotRoundTripping()
    ensures SummaryEntries(["### a", "### ", "### \nb"])
    ensures ParseFile(Print(["### a", "### ", "### \nb"], [])) == (["### a", "### b"], [])
  {
    hide SummaryEntry, ParseFile, Print, KeepSummary;
    HeaderOnly("### a");
    HeaderOnly("### ");
    HeaderOnly("### \nb");
    var s := ["### a", "### ", "### \nb"];
    ParsePrinted(s, []);
    LatePiece("b");
    assert "\n" + "b" == "\nb" && HEADER + "b" == "### b";
    TwoReloaded("### ", "### \nb");
    assert "### "[4..] == "" && "### \nb"[4..] == "\nb";
    assert KeepSummary("", false) == [] by { EmptyPiece(); }
    assert s[1..] == ["### ", "### \nb"];
    assert ReloadedTail(s[1..]) == ["### b"];
    assert Reloaded(s) == ["### a", "### b"];
  }

  lemma TwoReloaded(a: string, b: string)
    requires SummaryEntry(a) && SummaryEntry(b)
    ensures |a| >= |HEADER| && |b| >= |HEADER|
    ensures ReloadedTail([a, b]) == KeepSummary(a[|HEADER|..], false) + KeepSummary(b[|HEADER|..], false)
  {
    hide KeepSummary, Contains, HasDelimiters;
    assert [a, b][1..] == [b] && [b][1..] == [];
    assert ReloadedTail([b]) == KeepSummary(b[|HEADER|..], false);
  }

  // ---------------------------------------------------------------- the file, byte by byte

  /** How the file is laid out: both sections between their tags, summaries first, with blank lines
      inside the tags, between summaries, and two between entries. */
  lemma PrintedFile(summaries: seq<string>, raw: seq<string>)
    ensures Print(summaries, raw)
         == "<nupi:rolling-log:summaries>" + "\n\n"
            + (if summaries == [] then "" else Join(summaries, "\n\n") + "\n") + "\n"
            + "</nupi:rolling-log:summaries>" + "\n" + "<nupi:rolling-log:raw>" + "\n\n"
            + (if raw == [] then "" else Join(raw, "\n\n\n") + "\n") + "\n"
            + "</nupi:rolling-log:raw>" + "\n"
  {
    hide Join;
    Layout(SUMMARIES_OPEN, if summaries == [] then "" else Join(summaries, "\n\n") + "\n", SUMMARIES_CLOSE,
           RAW_OPEN, if raw == [] then "" else Join(raw, "\n\n\n") + "\n", RAW_CLOSE, "\n\n", "\n");
  }

  lemma Layout(a: string, b: string, c: string, d: string, e: string, f: string, blank: string, line: string)
    ensures a + (blank + b + line) + c + line + d + (blank + e + line) + f + line
         == a + blank + b + line + c + line + d + blank + e + line + f + line
  {
    Regrouped(a, blank, b, line);
    Regrouped(a + blank + b + line + c + line + d, blank, e, line);
  }

  lemma Regrouped(a: string, b: string, c: string, d: string)
    ensures a + (b + c + d) == a + b + c + d
  {}

  /** The first opening tag, and the first closing tag after it. */
  ghost predicate Between(content: string, open: string, close: string, o: int, c: int) {
    && OccursAt(content, open, o) && (forall j :: 0 <= j < o ==> !OccursAt(content, open, j))
    && o + |open| <= c && OccursAt(content, close, c)
    && (forall j :: o + |open| <= j < c ==> !OccursAt(content, close, j))
  }

  /** In any file at all, a section is what stands between its first opening tag and the first closing
      tag after it, and empty when there is no such pair. */
  lemma SectionOfAnyFile(content: string, open: string, close: string)
    ensures var r := ExtractTag(content, open, close);
            || (exists o, c :: Between(content, open, close, o, c) && r == content[o + |open|..c])
            || (r == "" && forall o, c :: !Between(content, open, close, o, c))
  {
    hide Index;
    var o := Index(content, open);
    if o >= 0 {
      var from := o + |open|;
      var rest := content[from..];
      var c := Index(rest, close);
      forall j ensures OccursAt(rest, close, j) <==> j >= 0 && OccursAt(content, close, from + j) {
        if j >= 0 && j + |close| <= |rest| { assert rest[j..j + |close|] == content[from + j..from + j + |close|]; }
      }
      if c >= 0 {
        assert rest[..c] == content[from..from + c];
        forall j | from <= j < from + c ensures !OccursAt(content, close, j) { assert !OccursAt(rest, close, j - from); }
        assert Between(content, open, close, o, from + c);
      } else {
        forall o', c' ensures !Between(content, open, close, o', c') {
          assert !OccursAt(rest, close, c' - from);
          assert Between(content, open, close, o', c') ==> o' == o;
        }
      }
    }
  }

  /** What any section holds: its pieces, each trimmed, without the empty ones; the separator takes a
      summary's header away, so it is put back before every piece but the very first. */
  lemma {:induction false} SummaryPieces(parts: seq<string>) returns (places: seq<nat>)
    ensures PlacesOfText(parts, {'\n'}, places) && |KeepSummaries(parts, true)| == |places|
    ensures forall i :: 0 <= i < |places| ==>
              var t := Trim(parts[places[i]], {'\n'});
              KeepSummaries(parts, true)[i] == if places[i] == 0 then t else "### " + t
    decreases |parts|
  {
    hide Trim, KeepSummaries;
    KeepNothing();
    places := [];
    if parts != [] {
      var init, last := parts[..|parts| - 1], parts[|parts| - 1];
      assert init + [last] == parts;
      var before := SummaryPieces(init);
      PlacesSnoc(init, {'\n'}, before, last);
      KeepSummariesAppend(init, last, true);
      places := if Trim(last, {'\n'}) == "" then before else before + [|init|];
      forall i | 0 <= i < |before| ensures parts[before[i]] == init[before[i]] {}
      hide PlacesOfText;
    }
  }

  lemma {:induction false} RawPieces(parts: seq<string>) returns (places: seq<nat>)
    ensures PlacesOfText(parts, {'\n'}, places) && |KeepRaw(parts)| == |places|
    ensures forall i :: 0 <= i < |places| ==> KeepRaw(parts)[i] == Trim(parts[places[i]], {'\n'})
    decreases |parts|
  {
    hide Trim, KeepRaw;
    KeepNothing();
    places := [];
    if parts != [] {
      var init, last := parts[..|parts| - 1], parts[|parts| - 1];
      assert init + [last] == parts;
      var before := RawPieces(init);
      PlacesSnoc(init, {'\n'}, before, last);
      KeepRawAppend(init, last);
      places := if Trim(last, {'\n'}) == "" then before else before + [|init|];
      forall i | 0 <= i < |before| ensures KeepRaw(init)[i] == Trim(parts[before[i]], {'\n'}) { assert parts[before[i]] == init[before[i]]; }
      hide PlacesOfText;
    }
  }

  /** Opening any file whatever: both lists are the trimmed pieces of their sections. */
  lemma AnyFileIsRead(content: string) returns (summaryPlaces: seq<nat>, rawPlaces: seq<nat>)
    ensures var section := Trim(ExtractTag(content, "<nupi:rolling-log:summaries>", "</nupi:rolling-log:summaries>"), {'\n'});
            var parts, summaries := Split(section, "\n\n### "), ParseFile(content).0;
            && PlacesOfText(parts, {'\n'}, summaryPlaces) && |summaries| == |summaryPlaces|
            && forall i :: 0 <= i < |summaryPlaces| ==>
                 var t := Trim(parts[summaryPlaces[i]], {'\n'}); summaries[i] == if summaryPlaces[i] == 0 then t else "### " + t
    ensures var section := Trim(ExtractTag(content, "<nupi:rolling-log:raw>", "</nupi:rolling-log:raw>"), {'\n'});
            var parts, raw := Split(section, "\n\n\n"), ParseFile(content).1;
            && PlacesOfText(parts, {'\n'}, rawPlaces) && |raw| == |rawPlaces|
            && forall i :: 0 <= i < |rawPlaces| ==> raw[i] == Trim(parts[rawPlaces[i]], {'\n'})
  {
    hide Trim, ExtractTag, Split, KeepSummaries, KeepRaw, Contains;
    var a := Trim(ExtractTag(content, SUMMARIES_OPEN, SUMMARIES_CLOSE), NEWLINES);
    var b := Trim(ExtractTag(content, RAW_OPEN, RAW_CLOSE), NEWLINES);
    summaryPlaces := SummaryPieces(Split(a, SUMMARY_SPLIT));
    rawPlaces := RawPieces(Split(b, RAW_JOIN));
    EmptySection(SUMMARY_SPLIT);
    EmptySection(RAW_JOIN);
  }

  lemma EmptySection(sep: string)
    requires sep != ""
    ensures Split("", sep) == [""] && KeepSummaries([""], true) == [] && KeepRaw([""]) == []
  {}
}
