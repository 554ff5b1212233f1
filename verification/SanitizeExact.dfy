/** What the sanitizers do to text, said without the way they do it: which characters change, which
    go, and that everything else stays where it was. */
module SanitizeExact {
  import opened Text
  import opened LogFormat
  import opened Sanitize

  // ---------------------------------------------------------------- line endings

  /** Read from the left: a carriage return becomes a newline and takes a newline after it with it. */
  function OneNewlineEach(text: string): string {
    if text == "" then ""
    else if text[0] == '\r' then "\n" + OneNewlineEach(if |text| > 1 && text[1] == '\n' then text[2..] else text[1..])
    else [text[0]] + OneNewlineEach(text[1..])
  }

  /** Every CRLF and every lone CR becomes exactly one newline, and nothing else changes. */
  lemma {:induction false} LineEndings(text: string)
    ensures NormalizeCR(text) == OneNewlineEach(text)
    decreases |text|
  {
    hide ReplaceAll;
    ReplacesFromLeft(text, "\r\n", "\n");
    if text == "" {
      ReplacesFromLeft("", "\r", "\n");
    } else if HasPrefix(text, "\r\n") {
      var rest := ReplaceAll(text[2..], "\r\n", "\n");
      assert text[0] == "\r\n"[0] && text[1] == "\r\n"[1];
      ReplacesFromLeft("\n" + rest, "\r", "\n");
      assert ("\n" + rest)[1..] == rest && [("\n" + rest)[0]] == "\n";
      LineEndings(text[2..]);
    } else {
      var rest := ReplaceAll(text[1..], "\r\n", "\n");
      var s := [text[0]] + rest;
      assert s[1..] == rest && s[..1] == [text[0]];
      if |text| > 1 { assert text[..2] == [text[0], text[1]]; }
      ReplacesFromLeft(s, "\r", "\n");
      LineEndings(text[1..]);
    }
  }

  // ---------------------------------------------------------------- tags

  /** One tag is taken out, and what stood before and after it is joined. */
  ghost predicate OneTagLess(a: string, b: string) {
    exists p, tag, q :: IsTag(tag) && a == p + tag + q && b == p + q
  }

  ghost predicate TagsTakenOut(steps: seq<string>, from: string, to: string) {
    |steps| > 0 && steps[0] == from && steps[|steps| - 1] == to
    && forall i :: 0 < i < |steps| ==> OneTagLess(steps[i - 1], steps[i])
  }

  lemma MoreTakenOut(a: seq<string>, b: seq<string>, from: string, mid: string, to: string)
    requires TagsTakenOut(a, from, mid) && TagsTakenOut(b, mid, to)
    ensures |b| > 0 && TagsTakenOut(a + b[1..], from, to)
  {
    hide OneTagLess;
    var all := a + b[1..];
    forall i | 0 < i < |all| ensures OneTagLess(all[i - 1], all[i]) {
      if i >= |a| {
        var k := i - |a| + 1;
        assert all[i] == b[k] && all[i - 1] == b[k - 1];
      }
    }
  }

  lemma OneLess(p: string, tag: string, q: string)
    requires IsTag(tag)
    ensures OneTagLess(p + tag + q, p + q)
  {}

  /** Joining without the tags, front first: the tags go one at a time. */
  lemma {:induction false} JoinTakesOut(front: string, parts: seq<string>, tag: string) returns (steps: seq<string>)
    requires IsTag(tag) && parts != []
    ensures |steps| > 0 && TagsTakenOut(steps, front + Join(parts, tag), front + Join(parts, ""))
    decreases |parts|
  {
    hide OneTagLess, IsTag;
    if |parts| == 1 {
      steps := [front + parts[0]];
    } else {
      var rest := parts[1..];
      var from, mid := front + Join(parts, tag), front + parts[0] + Join(rest, tag);
      OneLess(front + parts[0], tag, Join(rest, tag));
      assert from == front + parts[0] + tag + Join(rest, tag);
      var more := JoinTakesOut(front + parts[0], rest, tag);
      assert front + parts[0] + Join(rest, "") == front + Join(parts, "") by { assert parts[0] + "" == parts[0]; }
      assert TagsTakenOut([from, mid], from, mid);
      MoreTakenOut([from, mid], more, from, mid, front + Join(parts, ""));
      steps := [from, mid] + more[1..];
    }
  }

  lemma ReplaceTakesOut(text: string, tag: string) returns (steps: seq<string>)
    requires IsTag(tag) && |tag| > 0
    ensures |steps| > 0 && TagsTakenOut(steps, text, ReplaceAll(text, tag, ""))
  {
    hide TagsTakenOut, IsTag, Contains;
    var parts := Split(text, tag);
    steps := JoinTakesOut("", parts, tag);
    assert "" + Join(parts, tag) == text && "" + Join(parts, "") == ReplaceAll(text, tag, "");
  }

  lemma TheTags()
    ensures IsTag(SUMMARIES_OPEN) && IsTag(SUMMARIES_CLOSE) && IsTag(RAW_OPEN) && IsTag(RAW_CLOSE)
  {}

  /** Stripping takes out tags and nothing else. */
  lemma OnlyTagsGo(text: string) returns (steps: seq<string>)
    ensures TagsTakenOut(steps, text, StripTags(text))
  {
    hide TagsTakenOut, IsTag, ReplaceAll;
    TheTags();
    var t1 := ReplaceAll(text, SUMMARIES_OPEN, "");
    var t2 := ReplaceAll(t1, SUMMARIES_CLOSE, "");
    var t3 := ReplaceAll(t2, RAW_OPEN, "");
    var a := ReplaceTakesOut(text, SUMMARIES_OPEN);
    var b := ReplaceTakesOut(t1, SUMMARIES_CLOSE);
    var c := ReplaceTakesOut(t2, RAW_OPEN);
    var d := ReplaceTakesOut(t3, RAW_CLOSE);
    MoreTakenOut(a, b, text, t1, t2);
    MoreTakenOut(a + b[1..], c, text, t2, t3);
    MoreTakenOut(a + b[1..] + c[1..], d, text, t3, StripTags(text));
    steps := a + b[1..] + c[1..] + d[1..];
  }

  /** Text that opens no tag keeps everything. */
  lemma NothingOpensNothingGoes(text: string)
    requires '<' !in text
    ensures StripTags(text) == text
  {
    hide ReplaceAll, Contains;
    TagChars(SUMMARIES_OPEN);
    TagChars(SUMMARIES_CLOSE);
    TagChars(RAW_OPEN);
    TagChars(RAW_CLOSE);
    Absent(text, SUMMARIES_OPEN);
    Absent(text, SUMMARIES_CLOSE);
    Absent(text, RAW_OPEN);
    Absent(text, RAW_CLOSE);
  }

  lemma Absent(text: string, tag: string)
    requires '<' !in text && tag != "" && tag[0] == '<'
    ensures ReplaceAll(text, tag, "") == text
  {
    LacksFirst(text, tag);
    ReplaceNone(text, tag, "");
  }

  lemma {:induction false} TagsStrippedFrom(parts: seq<string>, tag: string)
    requires |tag| > 0 && tag[0] == '<' && (forall i :: 1 <= i < |tag| ==> tag[i] != '<')
    requires parts != [] && forall k :: 0 <= k < |parts| ==> '<' !in parts[k]
    ensures ReplaceAll(Join(parts, tag), tag, "") == Join(parts, "")
  {
    hide Contains, Separates;
    forall p | p in parts ensures !Contains(p, tag) && Separates(p, tag) { NotAcross(p, tag); }
    assert forall p <- parts[..|parts| - 1] :: p in parts;
    SplitJoin(parts, tag);
  }

  lemma NotAcross(p: string, tag: string)
    requires |tag| > 0 && tag[0] == '<' && '<' !in p
    ensures !Contains(p, tag) && Separates(p, tag)
  {
    LacksFirst(p, tag);
    forall i | 0 <= i < |p| ensures !OccursAt(p + tag, tag, i) {
      if i + |tag| <= |p + tag| { assert (p + tag)[i..i + |tag|][0] == p[i]; }
    }
  }

  lemma {:induction false} OtherTagNowhere(parts: seq<string>, tag: string, other: string, k: nat)
    requires TagLike(tag) && TagLike(other) && k < |tag| && k < |other| && tag[k] != other[k]
    requires parts != [] && forall i :: 0 <= i < |parts| ==> '<' !in parts[i]
    ensures !Contains(Join(parts, tag), other)
    decreases |parts|
  {
    hide Contains;
    if |parts| == 1 {
      LacksFirst(parts[0], other);
    } else {
      var p, rest := parts[0], Join(parts[1..], tag);
      OtherTagNowhere(parts[1..], tag, other, k);
      var s := p + tag + rest;
      forall i ensures !OccursAt(s, other, i) {
        if i >= |p + tag| {
          OccursAfter(p + tag, rest, other, i);
        } else if 0 <= i && i + |other| <= |s| {
          var here := s[i..i + |other|];
          assert here[0] == s[i] && here[k] == s[i + k];
          if i < |p| { assert s[i] == p[i]; } else { assert s[i] == tag[i - |p|]; }
          assert i == |p| ==> s[i + k] == tag[k];
        }
      }
    }
  }

  lemma OtherTagStays(parts: seq<string>, tag: string, other: string)
    requires IsTag(tag) && IsTag(other) && tag != other
    requires parts != [] && forall k :: 0 <= k < |parts| ==> '<' !in parts[k]
    ensures |other| > 0 && ReplaceAll(Join(parts, tag), other, "") == Join(parts, tag)
  {
    hide IsTag, Contains;
    var k := TagsDiffer(tag, other);
    OtherTagNowhere(parts, tag, other, k);
    ReplaceNone(Join(parts, tag), other, "");
  }

  lemma OneKindGoes(parts: seq<string>, tag: string)
    requires IsTag(tag) && parts != [] && forall k :: 0 <= k < |parts| ==> '<' !in parts[k]
    ensures |tag| > 0 && ReplaceAll(Join(parts, tag), tag, "") == Join(parts, "") && '<' !in Join(parts, "")
  {
    hide IsTag, ReplaceAll, TagLike;
    LikeTags();
    LikeTag(tag);
    TagsStrippedFrom(parts, tag);
    JoinChars(parts, "", '<');
  }

  lemma LikeTags()
    ensures forall tag :: IsTag(tag) ==> TagLike(tag)
  {
    hide TagLike;
    SummariesOpenChars();
    SummariesCloseChars();
    RawOpenChars();
    RawCloseChars();
  }

  lemma LikeTag(tag: string)
    requires TagLike(tag)
    ensures |tag| > 0 && tag[0] == '<' && forall i :: 1 <= i < |tag| ==> tag[i] != '<'
  {}

  /** Every tag goes, however often it stands there: text between tags of any one kind comes out
      joined. */
  lemma EveryTagGoes(parts: seq<string>, tag: string)
    requires IsTag(tag) && parts != [] && forall k :: 0 <= k < |parts| ==> '<' !in parts[k]
    ensures StripTags(Join(parts, tag)) == Join(parts, "")
  {
    hide ReplaceAll, TagLike, Join;
    TheTags();
    OneKindGoes(parts, tag);
    var text, bare := Join(parts, tag), Join(parts, "");
    StepOverTag(parts, tag, SUMMARIES_OPEN);
    StepOverTag(parts, tag, SUMMARIES_CLOSE);
    StepOverTag(parts, tag, RAW_OPEN);
    StepOverTag(parts, tag, RAW_CLOSE);
  }

  lemma StepOverTag(parts: seq<string>, tag: string, other: string)
    requires IsTag(tag) && IsTag(other) && parts != [] && forall k :: 0 <= k < |parts| ==> '<' !in parts[k]
    ensures |other| > 0
    ensures ReplaceAll(Join(parts, tag), other, "") == if other == tag then Join(parts, "") else Join(parts, tag)
    ensures ReplaceAll(Join(parts, ""), other, "") == Join(parts, "")
  {
    hide IsTag, ReplaceAll, TagLike, Join;
    LikeTags();
    LikeTag(other);
    OneKindGoes(parts, tag);
    if other != tag { OtherTagStays(parts, tag, other); }
    Absent(Join(parts, ""), other);
  }

  // ---------------------------------------------------------------- newlines, headers and the cut

  function Newlines(n: nat): (s: string)
    ensures |s| == n && forall i :: 0 <= i < n ==> s[i] == '\n'
  {
    if n == 0 then "" else "\n" + Newlines(n - 1)
  }

  /** What is kept of n newlines when `run` of their run have gone by. */
  function KeptOf(n: nat, run: nat): nat {
    if run >= 2 then 0 else if run + n <= 2 then n else 2 - run
  }

  lemma {:induction false} CollapseRun(n: nat, rest: string, run: nat)
    requires rest == "" || rest[0] != '\n'
    ensures Collapse(Newlines(n) + rest, run) == Newlines(KeptOf(n, run)) + Collapse(rest, 0)
    decreases n
  {
    hide Collapse, Newlines;
    OneMoreNewline(n - 1);
    if n == 0 {
      CollapseFresh(rest, run);
      assert "" + rest == rest && "" + Collapse(rest, 0) == Collapse(rest, 0);
    } else {
      var more, kept := Newlines(n - 1) + rest, KeptOf(n - 1, run + 1);
      assert "\n" + Newlines(n - 1) + rest == "\n" + more;
      CollapseRun(n - 1, rest, run + 1);
      CollapseOne(more, run);
      assert KeptOf(n, run) == kept + if run < 2 then 1 else 0;
      OneMoreNewline(kept);
      assert "\n" + Newlines(kept) + Collapse(rest, 0) == "\n" + (Newlines(kept) + Collapse(rest, 0));
    }
  }

  lemma OneMoreNewline(n: int)
    ensures Newlines(0) == "" && (n >= 0 ==> Newlines(n + 1) == "\n" + Newlines(n))
  {}

  lemma CollapseFresh(rest: string, run: nat)
    requires rest == "" || rest[0] != '\n'
    ensures Collapse(rest, run) == Collapse(rest, 0)
  {}

  lemma CollapseOne(more: string, run: nat)
    ensures Collapse("\n" + more, run) == if run < 2 then "\n" + Collapse(more, run + 1) else Collapse(more, run + 1)
  {
    assert ("\n" + more)[1..] == more;
    assert "" + Collapse(more, run + 1) == Collapse(more, run + 1);
  }

  /** Every run of newlines keeps its first two, and all else is kept: text before a run that does not
      end in a newline, and text after it that does not begin with one, are collapsed apart. */
  lemma RunsOfNewlines(before: string, n: nat, after: string)
    requires before == "" || before[|before| - 1] != '\n'
    requires after == "" || after[0] != '\n'
    ensures Collapse(before + Newlines(n) + after, 0)
         == Collapse(before, 0) + Newlines(if n < 2 then n else 2) + Collapse(after, 0)
    ensures '\n' !in before ==> Collapse(before, 0) == before
  {
    hide Collapse, Newlines;
    if '\n' !in before { CollapseLine(before); }
    var rest := Newlines(n) + after;
    CollapseBefore(before, 0, rest);
    CollapseRun(n, after, 0);
    assert before + Newlines(n) + after == before + rest;
    CollapseNone();
    var kept := Newlines(KeptOf(n, 0)) + Collapse(after, 0);
    assert Collapse(before, 0) + kept == Collapse(before, 0) + Newlines(KeptOf(n, 0)) + Collapse(after, 0);
  }

  lemma {:induction false} CollapseBefore(before: string, run: nat, rest: string)
    requires before == "" || before[|before| - 1] != '\n'
    ensures Collapse(before + rest, run) == Collapse(before, run) + (if before == "" then Collapse(rest, run) else Collapse(rest, 0))
    decreases |before|
  {
    if before == "" {
      assert before + rest == rest;
    } else {
      assert (before + rest)[1..] == before[1..] + rest;
      var next := if before[0] == '\n' then run + 1 else 0;
      CollapseBefore(before[1..], next, rest);
      var c := if before[0] == '\n' then (if run < 2 then "\n" else "") else [before[0]];
      assert c + (Collapse(before[1..], next) + Collapse(rest, 0)) == c + Collapse(before[1..], next) + Collapse(rest, 0);
      if |before| == 1 {
        assert before[1..] == "" && before[1..] + rest == rest;
      }
    }
  }

  /** A plain reply: a header at its front and headers after blank lines get one more mark, and runs of
      newlines are cut down; nothing else changes. */
  lemma HeadersAreDemoted(reply: string)
    requires '\r' !in reply && '<' !in reply
    ensures var marked := if HasPrefix(reply, "### ") then "#### " + reply[4..] else reply;
            SanitizeForSummary(reply) == Collapse(ReplaceAll(marked, "\n\n### ", "\n\n#### "), 0)
  {
    hide ReplaceAll, Collapse;
    NothingToStrip(reply);
  }

  /** A plain line goes into the log as it is. */
  lemma PlainLineStays(line: string)
    requires '\r' !in line && '<' !in line && '\n' !in line
    ensures SanitizeForRollingLog(line) == line && SanitizeForSummary(line)
         == if HasPrefix(line, "### ") then "#### " + line[4..] else line
  {
    hide ReplaceAll, Collapse;
    NothingToStrip(line);
    CollapseLine(line);
    HeadersAreDemoted(line);
    var marked := if HasPrefix(line, "### ") then "#### " + line[4..] else line;
    assert '\n' !in marked;
    assert forall c <- marked :: c != '\n';
    LacksFirst(marked, "\n\n### ");
    ReplaceNone(marked, "\n\n### ", "\n\n#### ");
    CollapseLine(marked);
  }

  /** The number that digits stand for. */
  function Value(d: string): int {
    if d == "" then 0 else 10 * Value(d[..|d| - 1]) + (d[|d| - 1] as int - '0' as int)
  }

  lemma {:induction false} DecimalIsRead(n: nat)
    ensures Value(Decimal(n)) == n
  {
    var digit := "0123456789"[n % 10..n % 10 + 1];
    assert digit[0] as int - '0' as int == n % 10;
    if n < 10 {
      assert Decimal(n)[..0] == "";
    } else {
      DecimalIsRead(n / 10);
      var d := Decimal(n);
      assert d[..|d| - 1] == Decimal(n / 10) && d[|d| - 1] == digit[0];
    }
  }

  /** Text over 64 KiB is cut there, and a line is added that tells its original length. */
  lemma CutExactly(text: string, originalLength: nat) returns (digits: string)
    ensures (forall c <- digits :: '0' <= c <= '9') && Value(digits) == originalLength
    ensures Truncate(text, originalLength)
         == if |text| <= 65536 then text else text[..65536] + "\n[truncated: " + digits + " bytes original]"
  {
    digits := Decimal(originalLength);
    DecimalIsRead(originalLength);
    if |text| > 65536 {
      var kept := text[..65536];
      assert "\n" + "[truncated: " == "\n[truncated: ";
      assert kept + ("\n" + ("[truncated: " + digits + " bytes original]")) == kept + "\n[truncated: " + digits + " bytes original]";
    }
  }
}
