/** The cleaning of text before it goes into a rolling log, and exactly when the log accepts it. */
module Sanitize {
  import opened Text
  import opened LogFormat
  import opened RollingLogSpec

  // ---------------------------------------------------------------- the sanitizers

  function NormalizeCR(text: string): string {
    ReplaceAll(ReplaceAll(text, "\r\n", "\n"), "\r", "\n")
  }

  function StripTags(text: string): string {
    ReplaceAll(ReplaceAll(ReplaceAll(ReplaceAll(text, SUMMARIES_OPEN, ""), SUMMARIES_CLOSE, ""), RAW_OPEN, ""), RAW_CLOSE, "")
  }

  /** Keep at most two newlines of every run, `run` of which have already gone by. */
  function Collapse(text: string, run: nat): string {
    if text == "" then ""
    else if text[0] == '\n' then (if run < 2 then "\n" else "") + Collapse(text[1..], run + 1)
    else [text[0]] + Collapse(text[1..], 0)
  }

  lemma CollapseNone()
    ensures forall run: nat :: Collapse("", run) == ""
  {}

  lemma CollapseStep(text: string, i: nat, run: nat, b: string)
    requires i < |text|
    ensures b + Collapse(text[i..], run)
         == if text[i] != '\n' then b + [text[i]] + Collapse(text[i + 1..], 0)
            else (if run < 2 then b + "\n" else b) + Collapse(text[i + 1..], run + 1)
  {
    assert text[i..][1..] == text[i + 1..] && text[i..][0] == text[i];
    var rest := if text[i] == '\n' then Collapse(text[i + 1..], run + 1) else Collapse(text[i + 1..], 0);
    assert b + ([text[i]] + rest) == b + [text[i]] + rest;
    assert "\n" == ['\n'] && "" + rest == rest;
  }

  /** `collapseExcessiveNewlines`: one pass with a counter. */
  method CollapseExcessiveNewlines(text: string) returns (b: string)
    ensures b == Collapse(text, 0)
  {
    CollapseNone();
    hide Collapse;
    b := "";
    var nlCount := 0;
    assert text[0..] == text;
    for i := 0 to |text|
      invariant b + Collapse(text[i..], nlCount) == Collapse(text, 0)
    {
      CollapseStep(text, i, nlCount, b);
      if text[i] == '\n' {
        nlCount := nlCount + 1;
        if nlCount <= 2 {
          b := b + "\n";
        }
      } else {
        nlCount := 0;
        b := b + [text[i]];
      }
    }
    assert text[|text|..] == "" && b + "" == b;
  }

  function SanitizeForRollingLog(text: string): string {
    Collapse(StripTags(NormalizeCR(text)), 0)
  }

  const DEMOTED := "#### "
  const DEMOTED_SPLIT := "\n\n#### "

  /** A leading "### " becomes "#### ". */
  function DemoteLeading(text: string): string {
    if HasPrefix(text, HEADER) then DEMOTED + text[4..] else text
  }

  function SanitizeForSummary(text: string): string {
    Collapse(ReplaceAll(DemoteLeading(StripTags(NormalizeCR(text))), SUMMARY_SPLIT, DEMOTED_SPLIT), 0)
  }

  // ---------------------------------------------------------------- replacing

  lemma {:induction false} JoinChars(parts: seq<string>, sep: string, c: char)
    requires c !in sep && forall k :: 0 <= k < |parts| ==> c !in parts[k]
    ensures c !in Join(parts, sep)
  {
    if |parts| > 1 { JoinChars(parts[1..], sep, c); }
  }

  lemma {:induction false} PartChars(parts: seq<string>, sep: string, c: char)
    requires c !in Join(parts, sep)
    ensures forall k :: 0 <= k < |parts| ==> c !in parts[k]
  {
    if |parts| > 1 {
      var s := Join(parts, sep);
      assert forall c <- parts[0] :: c in s;
      assert forall c <- Join(parts[1..], sep) :: c in s;
      PartChars(parts[1..], sep, c);
      forall k | 0 <= k < |parts| ensures c !in parts[k] {
        if k > 0 { assert parts[k] == parts[1..][k - 1]; }
      }
    }
  }

  lemma ReplaceAddsNoChar(s: string, old_: string, new_: string, c: char)
    requires |old_| > 0 && c !in s && c !in new_
    ensures c !in ReplaceAll(s, old_, new_)
  {
    PartChars(Split(s, old_), old_, c);
    JoinChars(Split(s, old_), new_, c);
  }

  lemma ReplaceRemovesChar(s: string, c: char, new_: string)
    requires c !in new_
    ensures c !in ReplaceAll(s, [c], new_)
  {
    var parts := Split(s, [c]);
    forall k | 0 <= k < |parts| ensures c !in parts[k] {
      var p := parts[k];
      assert p in parts;
      forall i | 0 <= i < |p| ensures p[i] != c {
        assert !OccursAt(p, [c], i);
        assert p[i..i + 1] == [p[i]];
      }
    }
    JoinChars(parts, new_, c);
  }

  lemma NormalizedHasNoCR(text: string)
    ensures '\r' !in NormalizeCR(text) && '\r' !in StripTags(NormalizeCR(text))
  {
    hide ReplaceAll;
    var t := NormalizeCR(text);
    ReplaceRemovesChar(ReplaceAll(text, "\r\n", "\n"), '\r', "\n");
    assert ['\r'] == "\r";
    var t1 := ReplaceAll(t, SUMMARIES_OPEN, "");
    var t2 := ReplaceAll(t1, SUMMARIES_CLOSE, "");
    var t3 := ReplaceAll(t2, RAW_OPEN, "");
    ReplaceAddsNoChar(t, SUMMARIES_OPEN, "", '\r');
    ReplaceAddsNoChar(t1, SUMMARIES_CLOSE, "", '\r');
    ReplaceAddsNoChar(t2, RAW_OPEN, "", '\r');
    ReplaceAddsNoChar(t3, RAW_CLOSE, "", '\r');
  }

  lemma StripLeavesCleanText(t: string)
    requires !HasDelimiters(t)
    ensures StripTags(t) == t
  {
    hide ReplaceAll, Contains;
    ReplaceNone(t, SUMMARIES_OPEN, "");
    ReplaceNone(t, SUMMARIES_CLOSE, "");
    ReplaceNone(t, RAW_OPEN, "");
    ReplaceNone(t, RAW_CLOSE, "");
  }

  lemma OccursWithin(pre: string, s: string, post: string, sub: string, i: int)
    requires OccursAt(s, sub, i)
    ensures OccursAt(pre + s + post, sub, |pre| + i)
  {
    assert (pre + s + post)[|pre| + i..|pre| + i + |sub|] == s[i..i + |sub|];
  }

  /** Characters foreign to a pattern keep it on one side of them. */
  lemma ForeignSeparates(a: string, sep: string, b: string, tag: string)
    requires |tag| > 0 && |sep| > 0 && forall c <- sep :: c !in tag
    ensures Contains(a + sep + b, tag) <==> Contains(a, tag) || Contains(b, tag)
  {
    var s := a + sep + b;
    if Contains(a, tag) {
      var i :| OccursAt(a, tag, i);
      OccursWithin("", a, sep + b, tag, i);
      assert "" + a + (sep + b) == s;
    }
    if Contains(b, tag) {
      var i :| OccursAt(b, tag, i);
      OccursWithin(a + sep, b, "", tag, i);
      assert a + sep + b + "" == s;
    }
    if !Contains(a, tag) && !Contains(b, tag) {
      forall i | 0 <= i && i + |tag| <= |s| ensures !OccursAt(s, tag, i) {
        var w := s[i..i + |tag|];
        if i + |tag| <= |a| {
          assert w == a[i..i + |tag|];
          assert !OccursAt(a, tag, i);
        } else if i >= |a| + |sep| {
          var j := i - |a| - |sep|;
          assert w == b[j..j + |tag|];
          assert !OccursAt(b, tag, j);
        } else if i <= |a| {
          assert sep[0] in sep && w[|a| - i] == sep[0] && w[|a| - i] in w;
        } else {
          assert sep[i - |a|] in sep && w[0] == sep[i - |a|] && w[0] in w;
        }
      }
    }
  }

  lemma {:induction false} JoinContains(parts: seq<string>, sep: string, tag: string)
    requires |tag| > 0 && |sep| > 0 && forall c <- sep :: c !in tag
    ensures Contains(Join(parts, sep), tag) <==> exists k :: 0 <= k < |parts| && Contains(parts[k], tag)
  {
    hide Contains;
    if |parts| == 0 {
      forall i ensures !OccursAt("", tag, i) {}
    } else if |parts| > 1 {
      JoinContains(parts[1..], sep, tag);
      ForeignSeparates(parts[0], sep, Join(parts[1..], sep), tag);
      if k :| 0 <= k < |parts[1..]| && Contains(parts[1..][k], tag) {
        assert parts[1..][k] == parts[k + 1];
      }
      if k :| 1 <= k < |parts| && Contains(parts[k], tag) {
        assert parts[k] == parts[1..][k - 1];
      }
    }
  }

  /** Replacing foreign text by foreign text neither makes nor breaks a tag. */
  lemma ReplaceKeepsTags(s: string, old_: string, new_: string, tag: string)
    requires |tag| > 0 && |old_| > 0 && |new_| > 0
    requires forall c <- old_ :: c !in tag
    requires forall c <- new_ :: c !in tag
    ensures Contains(ReplaceAll(s, old_, new_), tag) <==> Contains(s, tag)
  {
    hide Contains;
    JoinContains(Split(s, old_), old_, tag);
    JoinContains(Split(s, old_), new_, tag);
  }

  lemma {:induction false} DemotedLacksSplit(parts: seq<string>)
    requires |parts| >= 1 && forall k :: 0 <= k < |parts| ==> !Contains(parts[k], SUMMARY_SPLIT)
    ensures !Contains(Join(parts, DEMOTED_SPLIT), SUMMARY_SPLIT)
  {
    hide Contains;
    if |parts| > 1 {
      DemotedLacksSplit(parts[1..]);
      DemotedBetween(parts[0], Join(parts[1..], DEMOTED_SPLIT));
    }
  }

  lemma DemotedBetween(p: string, rest: string)
    requires !Contains(p, SUMMARY_SPLIT) && !Contains(rest, SUMMARY_SPLIT)
    ensures !Contains(p + DEMOTED_SPLIT + rest, SUMMARY_SPLIT)
  {
    hide Contains;
    var s := p + DEMOTED_SPLIT + rest;
    forall i | 0 <= i && i + |SUMMARY_SPLIT| <= |s| ensures !OccursAt(s, SUMMARY_SPLIT, i) {
      var w := s[i..i + |SUMMARY_SPLIT|];
      assert forall j :: 0 <= j < 6 ==> w[j] == s[i + j];
      if i + |SUMMARY_SPLIT| <= |p| {
        assert w == p[i..i + |SUMMARY_SPLIT|];
        assert !OccursAt(p, SUMMARY_SPLIT, i);
      } else if i >= |p| + |DEMOTED_SPLIT| {
        var j := i - |p| - |DEMOTED_SPLIT|;
        assert w == rest[j..j + |SUMMARY_SPLIT|];
        assert !OccursAt(rest, SUMMARY_SPLIT, j);
      } else {
        var d := i - |p|;
        assert forall j :: 0 <= j < 6 && 0 <= j + d < 7 ==> w[j] == DEMOTED_SPLIT[j + d];
        AcrossDemoted(d, w);
      }
    }
  }

  /** Wherever six characters overlap the demoted separator they differ from the header separator. */
  lemma AcrossDemoted(d: int, w: string)
    requires -6 < d < 7 && |w| == 6
    requires forall j :: 0 <= j < 6 && 0 <= j + d < 7 ==> w[j] == DEMOTED_SPLIT[j + d]
    ensures w != SUMMARY_SPLIT
  {
    if d < -1 {
      assert w[-d] == '\n';
    } else if d == -1 {
      assert w[2] == DEMOTED_SPLIT[1];
    } else if d == 0 {
      assert w[5] == DEMOTED_SPLIT[5];
    } else if d == 1 {
      assert w[1] == DEMOTED_SPLIT[2];
    } else {
      assert w[0] == DEMOTED_SPLIT[d];
    }
  }

  // ---------------------------------------------------------------- collapsing

  /** Newlines that precede the rest of a text, as far as a separator can see them. */
  function Lead(run: nat): string {
    if run == 0 then "" else if run == 1 then "\n" else "\n\n"
  }

  lemma LeadStep(run: nat, rest: string)
    ensures run < 2 ==> Lead(run) + ("\n" + rest) == Lead(run + 1) + rest
    ensures run >= 2 ==> Lead(run) + ("\n" + rest) == "\n" + (Lead(run + 1) + rest)
  {}

  /** On the first line nothing changes. */
  lemma {:induction false} CollapseKeepsLine(text: string, run: nat, line: string)
    requires '\n' !in line && (run < 2 || text == "" || text[0] != '\n')
    ensures HasPrefix(Collapse(text, run), line) <==> HasPrefix(text, line)
    decreases |text|
  {
    var out := Collapse(text, run);
    if line != "" && text != "" && text[0] != '\n' {
      CollapseKeepsLine(text[1..], 0, line[1..]);
      assert out == [text[0]] + Collapse(text[1..], 0);
      assert HasPrefix(text, line) <==> text[0] == line[0] && HasPrefix(text[1..], line[1..]) by {
        PrefixStep(text, line);
      }
      PrefixStep(out, line);
      assert out[1..] == Collapse(text[1..], 0);
    } else if line != "" && text != "" {
      assert out[0] == '\n';
    }
  }

  lemma PrefixStep(s: string, p: string)
    requires s != "" && p != ""
    ensures HasPrefix(s, p) <==> s[0] == p[0] && HasPrefix(s[1..], p[1..])
  {
    if s[0] == p[0] && HasPrefix(s[1..], p[1..]) {
      assert s[..|p|] == [s[0]] + s[1..][..|p| - 1];
      assert p == [p[0]] + p[1..];
    }
    if HasPrefix(s, p) {
      assert s[1..][..|p| - 1] == s[..|p|][1..];
    }
  }

  lemma ContainsStep(s: string, sub: string)
    requires |sub| > 0 && s != ""
    ensures Contains(s, sub) <==> HasPrefix(s, sub) || Contains(s[1..], sub)
  {
    if HasPrefix(s, sub) { assert OccursAt(s, sub, 0); }
    if Contains(s[1..], sub) {
      var i :| OccursAt(s[1..], sub, i);
      assert s[1..][i..i + |sub|] == s[i + 1..i + 1 + |sub|];
      assert OccursAt(s, sub, i + 1);
    }
    if Contains(s, sub) {
      var i :| OccursAt(s, sub, i);
      if i > 0 {
        assert s[1..][i - 1..i - 1 + |sub|] == s[i..i + |sub|];
        assert OccursAt(s[1..], sub, i - 1);
      }
    }
  }

  lemma CollapseNewline(text: string, run: nat)
    requires text != "" && text[0] == '\n'
    ensures var out, rest := Collapse(text, run), Collapse(text[1..], run + 1);
            && (run < 2 ==> out == "\n" + rest && out[1..] == rest)
            && (run >= 2 ==> out == rest)
            && Lead(run) + out == Lead(run + 1) + rest
  {
    LeadStep(run, Collapse(text[1..], run + 1));
  }

  lemma {:induction false} CollapseKeepsTags(text: string, run: nat, tag: string)
    requires |tag| > 0 && '\n' !in tag
    ensures Contains(Collapse(text, run), tag) <==> Contains(text, tag)
    decreases |text|
  {
    hide Contains;
    var out := Collapse(text, run);
    if text != "" {
      ContainsStep(text, tag);
      if text[0] == '\n' {
        CollapseKeepsTags(text[1..], run + 1, tag);
        assert !HasPrefix(text, tag);
        CollapseNewline(text, run);
        if run < 2 {
          ContainsStep(out, tag);
        }
      } else {
        CollapseKeepsTags(text[1..], 0, tag);
        ContainsStep(out, tag);
        assert out[1..] == Collapse(text[1..], 0);
        CollapseKeepsLine(text, run, tag);
      }
    }
  }

  /** At most two newlines in a row come out. */
  lemma {:induction false} CollapseLacksTriple(text: string, run: nat)
    ensures !Contains(Lead(run) + Collapse(text, run), "\n\n\n")
    decreases |text|
  {
    hide Contains;
    var out := Collapse(text, run);
    if text == "" {
      forall i ensures !OccursAt(Lead(run) + out, "\n\n\n", i) {}
    } else if text[0] == '\n' {
      CollapseLacksTriple(text[1..], run + 1);
      CollapseNewline(text, run);
    } else {
      CollapseLacksTriple(text[1..], 0);
      var rest := Collapse(text[1..], 0);
      assert Lead(0) + rest == rest;
      forall i ensures !OccursAt(Lead(run), "\n\n\n", i) {}
      assert Lead(run) + out == Lead(run) + [text[0]] + rest;
      ForeignSeparates(Lead(run), [text[0]], rest, "\n\n\n");
    }
  }

  /** No header separator comes out unless one went in. */
  lemma {:induction false} CollapseLacksSplit(text: string, run: nat)
    requires !Contains(Lead(run) + text, SUMMARY_SPLIT)
    ensures !Contains(Lead(run) + Collapse(text, run), SUMMARY_SPLIT)
    decreases |text|
  {
    hide Contains;
    var out := Collapse(text, run);
    if text == "" {
      forall i ensures !OccursAt(Lead(run) + out, SUMMARY_SPLIT, i) {}
    } else if text[0] == '\n' {
      assert text == "\n" + text[1..];
      LeadStep(run, text[1..]);
      CollapseNewline(text, run);
      if run >= 2 {
        ContainsStep(Lead(run) + text, SUMMARY_SPLIT);
        assert (Lead(run) + text)[1..] == Lead(run + 1) + text[1..];
      }
      CollapseLacksSplit(text[1..], run + 1);
    } else {
      var lead := Lead(run);
      assert Lead(0) + text[1..] == (lead + text)[|lead| + 1..|lead + text|];
      StretchLacks(lead + text, |lead| + 1, |lead + text|, SUMMARY_SPLIT);
      CollapseLacksSplit(text[1..], 0);
      assert out == [text[0]] + Collapse(text[1..], 0) && Lead(0) + Collapse(text[1..], 0) == out[1..];
      CollapseKeepsLine(text, run, HEADER);
      LeadBeforeHeader(run, text);
      LeadBeforeHeader(run, out);
      ContainsStep(text, SUMMARY_SPLIT);
      ContainsStep(out, SUMMARY_SPLIT);
    }
  }

  /** After newlines, a line that is not a header starts no separator. */
  lemma LeadBeforeHeader(run: nat, s: string)
    requires s != "" && s[0] != '\n'
    ensures Contains(Lead(run) + s, SUMMARY_SPLIT) <==> (run >= 2 && HasPrefix(s, HEADER)) || Contains(s, SUMMARY_SPLIT)
  {
    hide Contains;
    var lead := Lead(run);
    if run == 0 {
      assert lead + s == s;
    } else if run == 1 {
      ContainsStep(lead + s, SUMMARY_SPLIT);
      assert (lead + s)[1..] == s && (lead + s)[1] == s[0];
    } else {
      var t := "\n" + s;
      assert (lead + s)[1..] == t && t[1..] == s && t[1] == s[0];
      ContainsStep(lead + s, SUMMARY_SPLIT);
      ContainsStep(t, SUMMARY_SPLIT);
      PrefixStep(lead + s, SUMMARY_SPLIT);
      PrefixStep(t, SUMMARY_SPLIT[1..]);
      assert SUMMARY_SPLIT[1..][1..] == HEADER;
    }
  }

  // ---------------------------------------------------------------- the sanitizers meet the log

  /** `sanitizeForRollingLog`: no carriage return, never three newlines in a row, and a delimiter
      tag comes out only if removing tags spliced one together. */
  lemma CleanedEntry(text: string)
    ensures var out := SanitizeForRollingLog(text);
            && '\r' !in out && !Contains(out, RAW_JOIN)
            && (HasDelimiters(out) <==> HasDelimiters(StripTags(NormalizeCR(text))))
            && (!HasDelimiters(NormalizeCR(text)) ==> !HasDelimiters(out))
  {
    hide NormalizeCR, StripTags, Contains, Collapse;
    var t := StripTags(NormalizeCR(text));
    NormalizedHasNoCR(text);
    CollapseAddsNoChar(t, 0, '\r');
    CollapseLacksTriple(t, 0);
    assert Lead(0) + Collapse(t, 0) == Collapse(t, 0);
    CollapseKeepsDelimiters(t);
    if !HasDelimiters(NormalizeCR(text)) { StripLeavesCleanText(NormalizeCR(text)); }
  }

  lemma {:induction false} CollapseAddsNoChar(text: string, run: nat, c: char)
    requires c !in text
    ensures c !in Collapse(text, run)
    decreases |text|
  {
    if text != "" {
      CollapseAddsNoChar(text[1..], if text[0] == '\n' then run + 1 else 0, c);
    }
  }

  lemma CollapseKeepsDelimiters(t: string)
    ensures HasDelimiters(Collapse(t, 0)) <==> HasDelimiters(t)
  {
    hide Contains, Collapse;
    CollapseKeepsTags(t, 0, SUMMARIES_OPEN);
    CollapseKeepsTags(t, 0, SUMMARIES_CLOSE);
    CollapseKeepsTags(t, 0, RAW_OPEN);
    CollapseKeepsTags(t, 0, RAW_CLOSE);
  }

  const MAX_ENTRY_TEXT_BYTES := 64 * 1024

  function Decimal(n: nat): (d: string)
    ensures d != "" && forall c <- d :: '0' <= c <= '9'
  {
    var digit := "0123456789"[n % 10..n % 10 + 1];
    if n < 10 then digit else Decimal(n / 10) + digit
  }

  function Note(originalLength: nat): string {
    "[truncated: " + Decimal(originalLength) + " bytes original]"
  }

  /** The cut of `handleTurn` and `handleOutput`, with its annotation. */
  function Truncate(text: string, originalLength: nat): string {
    if |text| > MAX_ENTRY_TEXT_BYTES
    then text[..MAX_ENTRY_TEXT_BYTES] + ("\n" + Note(originalLength))
    else text
  }

  /** Does the cut fall right after a blank line? */
  predicate CutAfterBlankLine(text: string) {
    |text| > MAX_ENTRY_TEXT_BYTES && text[MAX_ENTRY_TEXT_BYTES - 2..MAX_ENTRY_TEXT_BYTES] == "\n\n"
  }

  function Kept(text: string): string {
    if |text| > MAX_ENTRY_TEXT_BYTES then text[..MAX_ENTRY_TEXT_BYTES] else text
  }

  predicate PlainLine(s: string) {
    s != "" && '\n' !in s && '<' !in s
  }

  lemma PlainLineFacts(s: string, sub: string)
    requires PlainLine(s) && sub != "" && (sub[0] == '<' || sub[0] == '\n')
    ensures !Contains(s, sub)
  {
    LacksFirst(s, sub);
  }

  /** A triple newline appears across a cut only when the text before it ends in two, and the
      annotation line follows. */
  lemma TripleAcrossCut(text: string, note: string)
    requires !Contains(text, "\n\n\n") && PlainLine(note) && |text| >= 2
    ensures Contains(text + ("\n" + note), "\n\n\n") <==> text[|text| - 2..] == "\n\n"
  {
    var s := text + ("\n" + note);
    var n := |text|;
    if text[n - 2..] == "\n\n" {
      assert s[n - 2..n + 1] == text[n - 2..] + "\n";
      assert OccursAt(s, "\n\n\n", n - 2);
    } else {
      forall i | 0 <= i && i + 3 <= |s| ensures !OccursAt(s, "\n\n\n", i) {
        var w := s[i..i + 3];
        if i + 3 <= n {
          assert w == text[i..i + 3];
          assert !OccursAt(text, "\n\n\n", i);
        } else if i == n - 2 {
          assert w[..2] == text[n - 2..];
        } else {
          assert w[2] == note[i + 2 - n - 1] && note[i + 2 - n - 1] in note;
        }
      }
    }
  }

  lemma NoteIsPlain(originalLength: nat)
    ensures PlainLine(Note(originalLength))
  {}

  /** A pattern cannot begin in text that lacks its first character. */
  lemma TextAfterPrefix(prefix: string, text: string, sub: string)
    requires sub != "" && sub[0] !in prefix
    ensures Contains(prefix + text, sub) <==> Contains(text, sub)
  {
    var s := prefix + text;
    forall i ensures OccursAt(s, sub, i) <==> i >= |prefix| && OccursAt(text, sub, i - |prefix|) {
      if 0 <= i && i + |sub| <= |s| {
        var w := s[i..i + |sub|];
        if i < |prefix| {
          assert w[0] == prefix[i] && prefix[i] in prefix;
        } else {
          assert w == text[i - |prefix|..i - |prefix| + |sub|];
        }
      }
    }
    if Contains(text, sub) {
      var i :| OccursAt(text, sub, i);
      assert OccursAt(s, sub, i + |prefix|);
    }
  }

  /** Trimming text that begins with a finished line only takes newlines off its end. */
  lemma TrimTail(f: string, head: string)
    requires head != "" && head[0] != '\n' && head[|head| - 1] != '\n' && HasPrefix(f, head)
    ensures var t := Trim(f, NEWLINES);
            HasPrefix(t, head) && |t| <= |f| && t == f[..|t|] && forall i :: |t| <= i < |f| ==> f[i] == '\n'
  {
    assert f[0] == head[0] && f[|head| - 1] == head[|head| - 1];
    assert TrimLeft(f, NEWLINES) == f;
    var t := TrimRight(f, NEWLINES);
    assert f[|head| - 1] !in NEWLINES;
    assert t[..|head|] == f[..|head|];
  }

  lemma TrimTailContains(f: string, head: string, sub: string)
    requires head != "" && head[0] != '\n' && head[|head| - 1] != '\n' && HasPrefix(f, head)
    requires sub != "" && sub[|sub| - 1] != '\n'
    ensures Contains(Trim(f, NEWLINES), sub) <==> Contains(f, sub)
  {
    TrimTail(f, head);
    var t := Trim(f, NEWLINES);
    forall i ensures OccursAt(t, sub, i) <==> OccursAt(f, sub, i) {
      if 0 <= i && i + |sub| <= |t| {
        assert t[i..i + |sub|] == f[i..i + |sub|];
      } else if 0 <= i && i + |sub| <= |f| {
        assert f[i..i + |sub|][|sub| - 1] == f[i + |sub| - 1] == '\n';
      }
    }
  }

  lemma TrimTailDelimiters(f: string, head: string)
    requires head != "" && head[0] != '\n' && head[|head| - 1] != '\n' && HasPrefix(f, head)
    ensures HasDelimiters(Trim(f, NEWLINES)) <==> HasDelimiters(f)
  {
    hide Contains, Trim;
    TrimTailContains(f, head, SUMMARIES_OPEN);
    TrimTailContains(f, head, SUMMARIES_CLOSE);
    TrimTailContains(f, head, RAW_OPEN);
    TrimTailContains(f, head, RAW_CLOSE);
  }

  lemma DelimitersAfterPrefix(prefix: string, text: string)
    requires '<' !in prefix
    ensures HasDelimiters(prefix + text) <==> HasDelimiters(text)
  {
    hide Contains;
    TextAfterPrefix(prefix, text, SUMMARIES_OPEN);
    TextAfterPrefix(prefix, text, SUMMARIES_CLOSE);
    TextAfterPrefix(prefix, text, RAW_OPEN);
    TextAfterPrefix(prefix, text, RAW_CLOSE);
  }

  lemma TruncatedTags(out: string, n: nat, tag: string)
    requires IsTag(tag)
    ensures Contains(Truncate(out, n), tag) <==> Contains(Kept(out), tag)
  {
    hide Contains, Note, PlainLine;
    TagFacts(tag);
    if |out| > MAX_ENTRY_TEXT_BYTES {
      var kept := out[..MAX_ENTRY_TEXT_BYTES];
      ForeignSeparates(kept, "\n", Note(n), tag);
      assert kept + ("\n" + Note(n)) == kept + "\n" + Note(n);
      NoteIsPlain(n);
      PlainLineFacts(Note(n), tag);
    }
  }

  lemma TruncatedDelimiters(out: string, n: nat)
    ensures HasDelimiters(Truncate(out, n)) <==> HasDelimiters(Kept(out))
    ensures HasDelimiters(Kept(out)) ==> HasDelimiters(out)
  {
    hide Contains, Truncate;
    TruncatedTags(out, n, SUMMARIES_OPEN);
    TruncatedTags(out, n, SUMMARIES_CLOSE);
    TruncatedTags(out, n, RAW_OPEN);
    TruncatedTags(out, n, RAW_CLOSE);
    if !HasDelimiters(out) && |out| > MAX_ENTRY_TEXT_BYTES {
      StretchLacks(out, 0, MAX_ENTRY_TEXT_BYTES, SUMMARIES_OPEN);
      StretchLacks(out, 0, MAX_ENTRY_TEXT_BYTES, SUMMARIES_CLOSE);
      StretchLacks(out, 0, MAX_ENTRY_TEXT_BYTES, RAW_OPEN);
      StretchLacks(out, 0, MAX_ENTRY_TEXT_BYTES, RAW_CLOSE);
      assert out[0..MAX_ENTRY_TEXT_BYTES] == Kept(out);
    }
  }

  lemma CutEntryTriple(prefix: string, kept: string, n: nat)
    requires PlainLine(prefix) && !Contains(kept, RAW_JOIN) && |kept| >= 2
    ensures var entry := prefix + (kept + ("\n" + Note(n)));
            Contains(Trim(entry, NEWLINES), RAW_JOIN) <==> kept[|kept| - 2..] == "\n\n"
  {
    hide Contains, Trim;
    var entry := prefix + (kept + ("\n" + Note(n)));
    NoteIsPlain(n);
    assert prefix[0] in prefix && Note(n)[|Note(n)| - 1] in Note(n);
    TrimAround("", entry, "", NEWLINES);
    assert "" + entry + "" == entry;
    TextAfterPrefix(prefix, kept + ("\n" + Note(n)), RAW_JOIN);
    TripleAcrossCut(kept, Note(n));
  }

  lemma WholeEntryTriple(prefix: string, out: string)
    requires PlainLine(prefix) && !Contains(out, RAW_JOIN)
    ensures !Contains(Trim(prefix + out, NEWLINES), RAW_JOIN)
  {
    hide Contains;
    var entry := prefix + out;
    TextAfterPrefix(prefix, out, RAW_JOIN);
    assert prefix[0] in prefix && prefix[|prefix| - 1] in prefix;
    assert entry[..|prefix|] == prefix;
    TrimTail(entry, prefix);
    var t := Trim(entry, NEWLINES);
    StretchLacks(entry, 0, |t|, RAW_JOIN);
    assert entry[0..|t|] == t;
  }

  lemma TruncatedTriple(prefix: string, out: string, n: nat)
    requires PlainLine(prefix) && !Contains(out, RAW_JOIN)
    ensures Contains(Trim(prefix + Truncate(out, n), NEWLINES), RAW_JOIN) <==> CutAfterBlankLine(out)
  {
    hide Contains, Note, Trim, PlainLine;
    if |out| > MAX_ENTRY_TEXT_BYTES {
      var kept := out[..MAX_ENTRY_TEXT_BYTES];
      StretchLacks(out, 0, MAX_ENTRY_TEXT_BYTES, RAW_JOIN);
      assert out[0..MAX_ENTRY_TEXT_BYTES] == kept;
      CutEntryTriple(prefix, kept, n);
      assert kept[|kept| - 2..] == out[MAX_ENTRY_TEXT_BYTES - 2..MAX_ENTRY_TEXT_BYTES];
    } else {
      WholeEntryTriple(prefix, out);
    }
  }

  /** A log entry made of a one-line prefix and cleaned, truncated text is refused exactly when a
      spliced tag is left in what is kept, or when the cut falls right after a blank line. */
  lemma EntryAccepted(log: Log, prefix: string, text: string, diskOk: bool)
    requires PlainLine(prefix)
    ensures var out := SanitizeForRollingLog(text);
            var r := AfterAppendRaw(log, prefix + Truncate(out, |text|), diskOk).1;
            && r != Ignored
            && (r == Rejected <==> HasDelimiters(Kept(out)) || CutAfterBlankLine(out))
            && (!HasDelimiters(NormalizeCR(text)) ==> (r == Rejected <==> CutAfterBlankLine(out)))
  {
    hide Contains, HasDelimiters, SanitizeForRollingLog, Truncate, CutAfterBlankLine, NormalizeCR, Trim, StripTags, Kept;
    var out := SanitizeForRollingLog(text);
    var body := Truncate(out, |text|);
    CleanedEntry(text);
    assert prefix[0] in prefix && prefix[|prefix| - 1] in prefix;
    assert (prefix + body)[..|prefix|] == prefix;
    TrimTail(prefix + body, prefix);
    TrimTailDelimiters(prefix + body, prefix);
    DelimitersAfterPrefix(prefix, body);
    TruncatedDelimiters(out, |text|);
    TruncatedTriple(prefix, out, |text|);
  }

  // ---------------------------------------------------------------- summaries

  const HEADER_AFTER_NEWLINE := "\n### "

  lemma {:induction false} JoinStart(parts: seq<string>, sep: string)
    requires |parts| >= 1 && |sep| >= 2 && sep[0] == '\n' && sep[1] == '\n'
    ensures HasPrefix(Join(parts, sep), HEADER_AFTER_NEWLINE) <==> HasPrefix(parts[0], HEADER_AFTER_NEWLINE)
  {
    if |parts| > 1 {
      var p, s := parts[0], Join(parts, sep);
      var k := |p|;
      assert s[..k] == p && s[k] == '\n' && s[k + 1] == '\n';
      if k < 5 {
        if |s| >= 5 {
          var w := s[..5];
          assert k < 4 ==> w[k] == '\n' && w[k + 1] == '\n';
          assert k == 4 ==> w[4] == '\n';
        }
      } else {
        assert s[..5] == p[..5];
      }
    }
  }

  lemma DemotionKeepsTag(d: string, tag: string)
    requires |tag| > 0 && '\n' !in tag && '#' !in tag && ' ' !in tag
    ensures Contains(ReplaceAll(d, SUMMARY_SPLIT, DEMOTED_SPLIT), tag) <==> Contains(d, tag)
  {
    hide Contains, ReplaceAll;
    ReplaceKeepsTags(d, SUMMARY_SPLIT, DEMOTED_SPLIT, tag);
  }

  lemma DemotionKeepsDelimiters(d: string)
    ensures HasDelimiters(ReplaceAll(d, SUMMARY_SPLIT, DEMOTED_SPLIT)) <==> HasDelimiters(d)
  {
    hide Contains, ReplaceAll;
    TagFacts(SUMMARIES_OPEN);
    TagFacts(SUMMARIES_CLOSE);
    TagFacts(RAW_OPEN);
    TagFacts(RAW_CLOSE);
    DemotionKeepsTag(d, SUMMARIES_OPEN);
    DemotionKeepsTag(d, SUMMARIES_CLOSE);
    DemotionKeepsTag(d, RAW_OPEN);
    DemotionKeepsTag(d, RAW_CLOSE);
  }

  lemma LeadingDemotion(t: string)
    ensures HasDelimiters(DemoteLeading(t)) <==> HasDelimiters(t)
    ensures HasPrefix(DemoteLeading(t), HEADER_AFTER_NEWLINE) <==> HasPrefix(t, HEADER_AFTER_NEWLINE)
  {
    hide HasDelimiters;
    if HasPrefix(t, HEADER) {
      assert t == HEADER + t[4..];
      DelimitersAfterPrefix(HEADER, t[4..]);
      DelimitersAfterPrefix(DEMOTED, t[4..]);
      assert t[0] == '#' && DemoteLeading(t)[0] == '#';
    }
  }

  /** Demotion leaves no header separator, changes no tag, and leaves a header that follows a
      single leading newline where it was. */
  lemma Demoted(t: string)
    ensures var r := ReplaceAll(DemoteLeading(t), SUMMARY_SPLIT, DEMOTED_SPLIT);
            && !Contains(r, SUMMARY_SPLIT)
            && (HasDelimiters(r) <==> HasDelimiters(t))
            && (HasPrefix(r, HEADER_AFTER_NEWLINE) <==> HasPrefix(t, HEADER_AFTER_NEWLINE))
  {
    hide Contains, HasDelimiters, Join, Split, DemoteLeading, HasPrefix;
    var d := DemoteLeading(t);
    LeadingDemotion(t);
    DemotionKeepsDelimiters(d);
    var parts := Split(d, SUMMARY_SPLIT);
    DemotedLacksSplit(parts);
    JoinStart(parts, SUMMARY_SPLIT);
    JoinStart(parts, DEMOTED_SPLIT);
  }

  /** The summary text holds no header separator, and begins with a header after a newline exactly
      when the stripped reply did. */
  lemma CleanedSummary(text: string)
    ensures var s, t := SanitizeForSummary(text), StripTags(NormalizeCR(text));
            && !Contains(s, SUMMARY_SPLIT)
            && (HasDelimiters(s) <==> HasDelimiters(t))
            && (HasPrefix(s, HEADER_AFTER_NEWLINE) <==> HasPrefix(t, HEADER_AFTER_NEWLINE))
  {
    hide Contains, HasDelimiters, ReplaceAll, StripTags, NormalizeCR, DemoteLeading;
    var t := StripTags(NormalizeCR(text));
    Demoted(t);
    var r := ReplaceAll(DemoteLeading(t), SUMMARY_SPLIT, DEMOTED_SPLIT);
    CollapseKeepsDelimiters(r);
    assert Lead(0) + r == r && Lead(0) + Collapse(r, 0) == Collapse(r, 0);
    CollapseLacksSplit(r, 0);
    if r != "" {
      var out := Collapse(r, 0);
      PrefixStep(r, HEADER_AFTER_NEWLINE);
      PrefixStep(out, HEADER_AFTER_NEWLINE);
      assert HEADER_AFTER_NEWLINE[1..] == HEADER;
      if r[0] == '\n' {
        CollapseNewline(r, 0);
        CollapseKeepsLine(r[1..], 1, HEADER);
      }
    }
  }

  /** A generated header over a cleaned reply is refused exactly when a spliced tag is left or the
      stripped reply begins with one newline and "### "; otherwise, once written, it is a summary
      that survives every reload. */
  lemma SummaryAccepted(log: Log, title: string, text: string, diskOk: bool)
    requires PlainLine(title)
    ensures var t := StripTags(NormalizeCR(text));
            var formatted := HEADER + title + "\n" + SanitizeForSummary(text);
            var (log', r) := AfterAppendSummary(log, formatted, diskOk);
            && r != Ignored
            && (r == Rejected <==> HasDelimiters(t) || HasPrefix(t, HEADER_AFTER_NEWLINE))
            && (r == Stored ==> BodyOnHeaderLine(Trim(formatted, NEWLINES)))
  {
    hide Contains, HasDelimiters, SanitizeForSummary, StripTags, NormalizeCR, Trim;
    var s := SanitizeForSummary(text);
    var line := HEADER + title;
    var f := line + "\n" + s;
    CleanedSummary(text);
    assert title[0] in title && title[|title| - 1] in title;
    assert f[..|line|] == line;
    TrimTail(f, line);
    TrimTailDelimiters(f, line);
    TrimTailContains(f, line, SUMMARY_SPLIT);
    assert f == line + ("\n" + s);
    TextAfterPrefix(line, "\n" + s, SUMMARY_SPLIT);
    DelimitersAfterPrefix(line, "\n" + s);
    DelimitersAfterPrefix("\n", s);
    ContainsStep("\n" + s, SUMMARY_SPLIT);
    assert ("\n" + s)[1..] == s && SUMMARY_SPLIT[1..] == HEADER_AFTER_NEWLINE;
    PrefixStep("\n" + s, SUMMARY_SPLIT);
    var t := Trim(f, NEWLINES);
    assert t[..4] == t[..|line|][..4] == HEADER;
    assert t[4] == title[0];
  }

  // ---------------------------------------------------------------- what cleaning does not catch

  /** Text that cleaning leaves alone but for its newlines. */
  predicate NoMarks(s: string) {
    '\r' !in s && '<' !in s
  }

  lemma NothingToStrip(text: string)
    requires NoMarks(text)
    ensures StripTags(NormalizeCR(text)) == text && !HasDelimiters(text)
  {
    hide ReplaceAll, Contains;
    LacksFirst(text, "\r\n");
    LacksFirst(text, "\r");
    ReplaceNone(text, "\r\n", "\n");
    ReplaceNone(text, "\r", "\n");
    TagChars(SUMMARIES_OPEN);
    TagChars(SUMMARIES_CLOSE);
    TagChars(RAW_OPEN);
    TagChars(RAW_CLOSE);
    LacksFirst(text, SUMMARIES_OPEN);
    LacksFirst(text, SUMMARIES_CLOSE);
    LacksFirst(text, RAW_OPEN);
    LacksFirst(text, RAW_CLOSE);
    ReplaceNone(text, SUMMARIES_OPEN, "");
    ReplaceNone(text, SUMMARIES_CLOSE, "");
    ReplaceNone(text, RAW_OPEN, "");
    ReplaceNone(text, RAW_CLOSE, "");
  }

  lemma {:induction false} CollapseAfterLine(line: string, s: string, run: nat)
    requires line != "" && '\n' !in line
    ensures Collapse(line + s, run) == line + Collapse(s, 0)
  {
    assert line[0] in line;
    assert (line + s)[1..] == line[1..] + s;
    if |line| == 1 {
      assert line[1..] + s == s && line == [line[0]];
    } else {
      CollapseAfterLine(line[1..], s, 0);
      assert [line[0]] + (line[1..] + Collapse(s, 0)) == line + Collapse(s, 0);
    }
  }

  lemma BlankLineStays(c: char)
    requires c != '\n'
    ensures Collapse("\n\n" + [c], 0) == "\n\n" + [c]
  {
    var s := "\n\n" + [c];
    assert s[1..] == "\n" + [c] && s[1..][1..] == [c] && [c][1..] == "";
    assert Collapse([c], 2) == [c] + Collapse("", 0);
    assert Collapse("\n" + [c], 1) == "\n" + Collapse([c], 2);
    assert "\n" + ("\n" + [c]) == s;
  }

  /** Whole lines of plain text, a blank line exactly at 64 KiB, one character more: the annotation
      makes a triple newline of it and the entry is refused, though nothing in the text is forbidden. */
  lemma CutIsRefused(log: Log, prefix: string, line: string, c: char, diskOk: bool)
    requires PlainLine(prefix) && |line| == MAX_ENTRY_TEXT_BYTES - 2 && '\n' !in line
    requires NoMarks(line) && c != '\n' && c != '\r' && c != '<'
    ensures var text := line + ("\n\n" + [c]);
            && !HasDelimiters(text) && SanitizeForRollingLog(text) == text
            && AfterAppendRaw(log, prefix + Truncate(SanitizeForRollingLog(text), |text|), diskOk).1 == Rejected
  {
    hide NormalizeCR, StripTags, Collapse, HasDelimiters, Contains, AfterAppendRaw, Truncate;
    var text := line + ("\n\n" + [c]);
    NothingToStrip(text);
    CollapseAfterLine(line, "\n\n" + [c], 0);
    BlankLineStays(c);
    EntryAccepted(log, prefix, text, diskOk);
    assert text[MAX_ENTRY_TEXT_BYTES - 2..MAX_ENTRY_TEXT_BYTES] == "\n\n";
  }

  /** A reply that begins with a newline and a header is refused however plain the rest of it is. */
  lemma HeadedReplyIsRefused(log: Log, title: string, rest: string, diskOk: bool)
    requires PlainLine(title) && NoMarks(rest)
    ensures var text := HEADER_AFTER_NEWLINE + rest;
            && !HasDelimiters(text)
            && AfterAppendSummary(log, HEADER + title + "\n" + SanitizeForSummary(text), diskOk).1 == Rejected
  {
    hide NormalizeCR, StripTags, Collapse, HasDelimiters, Contains, AfterAppendSummary, SanitizeForSummary;
    var text := HEADER_AFTER_NEWLINE + rest;
    NothingToStrip(text);
    SummaryAccepted(log, title, text, diskOk);
    assert text[..|HEADER_AFTER_NEWLINE|] == HEADER_AFTER_NEWLINE;
  }

  /** Removing a tag from inside another tag of the same kind leaves a tag behind. */
  lemma SplicedTag()
    ensures var text := "<nupi:rolling-log:r" + RAW_OPEN + "aw>";
            SanitizeForRollingLog(text) == RAW_OPEN && HasDelimiters(SanitizeForRollingLog(text))
  {
    hide ReplaceAll, HasDelimiters, Contains, Collapse, SanitizeForRollingLog;
    SplicedChars();
    Spliced("<nupi:rolling-log:r", RAW_OPEN, "aw>");
    TagIsDelimiter();
  }

  /** Every "<" opens the word "nupi:rolling-log:r", and there is no carriage return. */
  predicate RawOpeners(text: string) {
    '\r' !in text && forall i :: 0 <= i < |text| && text[i] == '<' ==> i + 18 < |text| && text[i + 1] == 'n' && text[i + 18] == 'r'
  }

  lemma SplicedChars()
    ensures var p, q := "<nupi:rolling-log:r", "aw>";
            && p + q == RAW_OPEN && |p| < |RAW_OPEN| && |q| < |RAW_OPEN|
            && RawOpeners(p + RAW_OPEN + q) && RawOpeners(RAW_OPEN) && '\n' !in RAW_OPEN
            && (forall i :: 1 <= i < |RAW_OPEN| ==> RAW_OPEN[i] != RAW_OPEN[0])
  {
    RawOpenChars();
    var p, q := "<nupi:rolling-log:r", "aw>";
    assert p[0] == '<' && p[1] == 'n' && p[18] == 'r' && |p| == 19;
    assert forall i :: 1 <= i < |p| ==> p[i] == RAW_OPEN[i];
    assert q == RAW_OPEN[19..];
    assert forall i :: 0 <= i < |q| ==> q[i] == RAW_OPEN[19 + i];
  }

  lemma Spliced(p: string, tag: string, q: string)
    requires tag == RAW_OPEN && p + q == tag && |p| < |tag| && |q| < |tag|
    requires RawOpeners(p + tag + q) && RawOpeners(tag) && '\n' !in tag
    requires forall i :: 1 <= i < |tag| ==> tag[i] != tag[0]
    ensures SanitizeForRollingLog(p + tag + q) == tag
  {
    hide ReplaceAll, HasDelimiters, Contains, Collapse;
    var text := p + tag + q;
    LacksFirst(text, "\r\n");
    LacksFirst(text, "\r");
    ReplaceNone(text, "\r\n", "\n");
    ReplaceNone(text, "\r", "\n");
    OpenersAt(text);
    ReplaceNone(text, SUMMARIES_OPEN, "");
    ReplaceNone(text, SUMMARIES_CLOSE, "");
    RemoveMiddle(p, tag, q);
    OpenersAt(tag);
    ReplaceNone(tag, RAW_CLOSE, "");
    CollapseLine(tag);
  }

  lemma TagIsDelimiter()
    ensures HasDelimiters(RAW_OPEN)
  {
    assert OccursAt(RAW_OPEN, RAW_OPEN, 0);
  }

  lemma OpenersAt(text: string)
    requires RawOpeners(text)
    ensures !Contains(text, SUMMARIES_OPEN) && !Contains(text, SUMMARIES_CLOSE) && !Contains(text, RAW_CLOSE)
  {
    forall i, tag | (tag == SUMMARIES_OPEN || tag == SUMMARIES_CLOSE || tag == RAW_CLOSE)
      ensures !OccursAt(text, tag, i)
    {
      if 0 <= i && i + |tag| <= |text| {
        var w := text[i..i + |tag|];
        assert w[0] == text[i] && w[1] == text[i + 1] && w[18] == text[i + 18];
      }
    }
  }

  lemma RemoveMiddle(p: string, tag: string, q: string)
    requires |tag| > 0 && |p| < |tag| && |q| < |tag| && forall i :: 1 <= i < |tag| ==> tag[i] != tag[0]
    ensures ReplaceAll(p + tag + q, tag, "") == p + q
  {
    forall i | 0 <= i < |p| ensures !OccursAt(p + tag, tag, i) {
      assert (p + tag)[i..i + |tag|][|p| - i] == tag[0];
    }
    SplitHead(p, tag, q);
    forall i ensures !OccursAt(q, tag, i) {}
    SplitNone(q, tag);
    assert Join([p, q], "") == p + "" + Join([q], "") by { assert [p, q][1..] == [q]; }
  }

  lemma {:induction false} CollapseLine(s: string)
    requires '\n' !in s
    ensures Collapse(s, 0) == s
  {
    if s != "" { CollapseLine(s[1..]); }
  }
}
