/** Where the chunks of a document begin and what stands in each, told from its sections and
    paragraphs, without the passes that make them. */
module ChunkBoundaries {
  import opened Text
  import opened Chunker

  // ---------------------------------------------------------------- lines and sizes

  predicate Starts3(s: string, a: char, b: char, c: char) {
    |s| >= 3 && s[0] == a && s[1] == b && s[2] == c
  }

  lemma PrefixOf3(s: string, p: string)
    requires |p| == 3
    ensures HasPrefix(s, p) <==> Starts3(s, p[0], p[1], p[2])
  {
    if Starts3(s, p[0], p[1], p[2]) { assert s[..3] == p; }
  }

  lemma PrefixOf4(s: string, p: string)
    requires |p| == 4
    ensures HasPrefix(s, p) <==> Starts3(s, p[0], p[1], p[2]) && |s| >= 4 && s[3] == p[3]
  {
    if Starts3(s, p[0], p[1], p[2]) && |s| >= 4 && s[3] == p[3] { assert s[..4] == p; }
  }

  /** A line is a header, or a fence, by how its text begins between any spaces: with two or three
      number signs, a space and a title; or with three backquotes or tildes. */
  lemma LinesAreTold(pre: string, line: string, post: string)
    requires (forall c <- pre :: c in SPACES) && (forall c <- post :: c in SPACES) && Trimmed(line, SPACES)
    ensures IsHeader(pre + line + post) <==>
              Starts3(line, '#', '#', ' ') || (Starts3(line, '#', '#', '#') && |line| >= 4 && line[3] == ' ')
    ensures IsFence(pre + line + post) <==> Starts3(line, '`', '`', '`') || Starts3(line, '~', '~', '~')
  {
    hide Trim, Trimmed;
    TrimAround(pre, line, post, SPACES);
    PrefixOf3(line, "## ");
    PrefixOf4(line, "### ");
    PrefixOf3(line, "```");
    PrefixOf3(line, "~~~");
  }

  /** The size of a text is that of its parts, and of one character that of its UTF-8 encoding. */
  lemma SizesAdd(a: string, b: string, c: char)
    ensures Bytes(a + b) == Bytes(a) + Bytes(b)
    ensures Bytes([c]) == (if c < '\U{80}' then 1 else if c < '\U{800}' then 2 else if c < '\U{10000}' then 3 else 4)
  {
    BytesConcat(a, b);
  }

  // ---------------------------------------------------------------- trimmed texts

  lemma {:induction false} KeptPlaces(texts: seq<string>) returns (places: seq<nat>)
    ensures PlacesOfText(texts, SPACES, places) && |Kept(texts)| == |places|
    ensures forall i :: 0 <= i < |places| ==> Kept(texts)[i] == Trim(texts[places[i]], SPACES)
    decreases |texts|
  {
    hide Trim, Kept;
    KeptSnoc([], "");
    places := [];
    if texts != [] {
      var init, last := texts[..|texts| - 1], texts[|texts| - 1];
      assert init + [last] == texts;
      var before := KeptPlaces(init);
      PlacesSnoc(init, SPACES, before, last);
      KeptSnoc(init, last);
      places := if Trim(last, SPACES) == "" then before else before + [|init|];
      forall i | 0 <= i < |before| ensures texts[before[i]] == init[before[i]] {}
      hide PlacesOfText;
    }
  }

  lemma {:induction false} KeptConcat(a: seq<string>, b: seq<string>)
    ensures Kept(a + b) == Kept(a) + Kept(b)
    decreases |b|
  {
    hide TrimSpace, Kept;
    KeptSnoc([], "");
    if b == [] {
      assert a + b == a;
    } else {
      var init, last := b[..|b| - 1], b[|b| - 1];
      assert a + b == a + init + [last] && init + [last] == b;
      KeptConcat(a, init);
      KeptSnoc(a + init, last);
      KeptSnoc(init, last);
      assert Kept(a) + Kept(init) + [TrimSpace(last)] == Kept(a) + (Kept(init) + [TrimSpace(last)]);
    }
  }

  lemma TrimTwice(s: string)
    ensures TrimSpace(TrimSpace(s)) == TrimSpace(s)
  {
    hide Trim;
    TrimAround("", TrimSpace(s), "", SPACES);
    assert "" + TrimSpace(s) + "" == TrimSpace(s);
  }

  lemma {:induction false} KeptTwice(texts: seq<string>)
    ensures Kept(Kept(texts)) == Kept(texts)
    decreases |texts|
  {
    hide TrimSpace, Kept;
    KeptSnoc([], "");
    if texts != [] {
      var init, last := texts[..|texts| - 1], texts[|texts| - 1];
      assert init + [last] == texts;
      KeptTwice(init);
      KeptSnoc(init, last);
      TrimTwice(last);
      KeptSnoc(Kept(init), TrimSpace(last));
    }
  }

  // ---------------------------------------------------------------- pieces

  /** The sections, those over 2000 bytes cut at their blank lines. */
  function CutLarge(sections: seq<string>): seq<string> {
    if sections == [] then [] else
      var last := sections[|sections| - 1];
      CutLarge(sections[..|sections| - 1]) + (if Bytes(last) <= 2000 then [last] else Split(last, "\n\n"))
  }

  lemma {:induction false} ExpandedPieces(sections: seq<string>)
    ensures Kept(Expand(sections)) == Kept(CutLarge(sections))
    decreases |sections|
  {
    hide Kept, Bytes, Split;
    if sections != [] {
      var init, last := sections[..|sections| - 1], sections[|sections| - 1];
      ExpandedPieces(init);
      KeptConcat(Expand(init), if Bytes(last) > MAX_CHUNK_BYTES then Paragraphs(last) else [last]);
      KeptConcat(CutLarge(init), if Bytes(last) <= 2000 then [last] else Split(last, PARAGRAPH));
      KeptTwice(Split(last, PARAGRAPH));
    }
  }

  /** What has no blank line inside stays whole. */
  lemma {:induction false} WholeParagraphs(texts: seq<string>)
    requires forall i :: 0 <= i < |texts| ==> Small(texts[i])
    ensures Kept(Expand(texts)) == Kept(texts)
    decreases |texts|
  {
    hide Kept, Bytes, Contains, Expand;
    ExpandSnoc([], "");
    if texts != [] {
      var init, last := texts[..|texts| - 1], texts[|texts| - 1];
      assert init + [last] == texts && Small(texts[|texts| - 1]);
      WholeParagraphs(init);
      ExpandSnoc(init, last);
      KeptConcat(Expand(init), if Bytes(last) > MAX_CHUNK_BYTES then Paragraphs(last) else [last]);
      KeptConcat(init, [last]);
      if Bytes(last) > MAX_CHUNK_BYTES {
        SplitNone(last, PARAGRAPH);
        KeptTwice([last]);
      }
    }
  }

  // ---------------------------------------------------------------- groups

  /** A text begins a chunk exactly when it is the first or has 20 bytes or more. */
  ghost predicate Heads(texts: seq<string>, heads: seq<nat>) {
    && (forall i, j :: 0 <= i < j < |heads| ==> heads[i] < heads[j])
    && (forall k :: 0 <= k < |texts| ==> (k in heads <==> k == 0 || Bytes(texts[k]) >= 20))
    && (forall i :: 0 <= i < |heads| ==> heads[i] < |texts|)
  }

  /** Each chunk is the texts from where it begins up to the next, joined by blank lines. */
  ghost predicate Groups(texts: seq<string>, chunks: seq<string>, heads: seq<nat>) {
    && Heads(texts, heads) && |heads| == |chunks|
    && forall i :: 0 <= i < |heads| ==> chunks[i] == Join(texts[heads[i]..GroupEnd(texts, heads, i)], "\n\n")
  }

  function GroupEnd(texts: seq<string>, heads: seq<nat>, i: nat): (e: nat)
    requires Heads(texts, heads) && i < |heads|
    ensures heads[i] < e <= |texts|
  {
    if i + 1 < |heads| then heads[i + 1] else |texts|
  }

  lemma HeadsSnoc(texts: seq<string>, heads: seq<nat>, last: string)
    requires Heads(texts, heads)
    ensures texts == [] || Bytes(last) >= 20 ==> Heads(texts + [last], heads + [|texts|])
    ensures texts != [] && Bytes(last) < 20 ==> Heads(texts + [last], heads) && heads != []
  {
    hide Bytes;
    var all, more := texts + [last], heads + [|texts|];
    if texts != [] { assert 0 in heads; }
    forall k | 0 <= k < |all| ensures (k in more <==> k in heads || k == |texts|) && (k < |texts| ==> all[k] == texts[k]) {
      if k == |texts| { assert more[|heads|] == k; }
    }
    assert |texts| !in heads;
  }

  lemma GroupBegins(texts: seq<string>, chunks: seq<string>, heads: seq<nat>, last: string)
    requires Groups(texts, chunks, heads) && (texts == [] || Bytes(last) >= 20)
    ensures Groups(texts + [last], chunks + [last], heads + [|texts|])
  {
    HeadsSnoc(texts, heads, last);
    hide Bytes, Join, Heads;
    var all, heads' := texts + [last], heads + [|texts|];
    forall i | 0 <= i < |heads'| ensures (chunks + [last])[i] == Join(all[heads'[i]..GroupEnd(all, heads', i)], "\n\n") {
      if i < |heads| {
        SameStretch(texts, last, heads[i], GroupEnd(texts, heads, i));
        assert GroupEnd(all, heads', i) == GroupEnd(texts, heads, i);
      } else {
        LastAlone(texts, last);
      }
    }
  }

  lemma GroupGrows(texts: seq<string>, chunks: seq<string>, heads: seq<nat>, last: string)
    requires Groups(texts, chunks, heads) && texts != [] && Bytes(last) < 20
    ensures chunks != [] && Groups(texts + [last], chunks[..|chunks| - 1] + [chunks[|chunks| - 1] + "\n\n" + last], heads)
  {
    HeadsSnoc(texts, heads, last);
    hide Bytes, Join, Heads;
    var all, n := texts + [last], |heads| - 1;
    var chunks' := chunks[..n] + [chunks[n] + "\n\n" + last];
    forall i | 0 <= i < |heads| ensures chunks'[i] == Join(all[heads[i]..GroupEnd(all, heads, i)], "\n\n") {
      if i < n {
        SameStretch(texts, last, heads[i], heads[i + 1]);
      } else {
        LastGrows(texts, heads[n], last);
      }
    }
  }

  lemma SameStretch(texts: seq<string>, last: string, from: nat, to: nat)
    requires from <= to <= |texts|
    ensures (texts + [last])[from..to] == texts[from..to]
  {}

  lemma LastAlone(texts: seq<string>, last: string)
    ensures Join((texts + [last])[|texts|..|texts| + 1], "\n\n") == last
  {
    assert (texts + [last])[|texts|..|texts| + 1] == [last];
  }

  lemma LastGrows(texts: seq<string>, from: nat, last: string)
    requires from < |texts|
    ensures Join((texts + [last])[from..|texts| + 1], "\n\n") == Join(texts[from..|texts|], "\n\n") + "\n\n" + last
  {
    assert (texts + [last])[from..|texts| + 1] == texts[from..|texts|] + [last];
    JoinAppend(texts[from..|texts|], last, "\n\n");
  }

  lemma {:induction false} MergedGroups(texts: seq<string>) returns (heads: seq<nat>)
    ensures Groups(texts, Merged(texts), heads)
    decreases |texts|
  {
    hide Bytes, Join, Merged;
    NoneMerged();
    heads := [];
    if texts != [] {
      var init, last := texts[..|texts| - 1], texts[|texts| - 1];
      assert init + [last] == texts;
      heads := MergedGroups(init);
      MergedSnoc(init, last);
      if Bytes(last) < MIN_CHUNK_BYTES && init != [] {
        GroupGrows(init, Merged(init), heads, last);
      } else {
        GroupBegins(init, Merged(init), heads, last);
        heads := heads + [|init|];
      }
    }
  }

  lemma NoneMerged()
    ensures Merged([]) == []
  {}

  // ---------------------------------------------------------------- the results

  /** The trimmed texts at these places. */
  function TextsAt(pieces: seq<string>, places: seq<nat>): (texts: seq<string>)
    requires forall i :: 0 <= i < |places| ==> places[i] < |pieces|
    ensures |texts| == |places| && forall i :: 0 <= i < |places| ==> texts[i] == Trim(pieces[places[i]], SPACES)
  {
    seq(|places|, i requires 0 <= i < |places| => Trim(pieces[places[i]], SPACES))
  }

  /** All of it: a trimmed document with at least two sections is cut into them, the ones over 2000
      bytes further at their blank lines; one with fewer is cut at its blank lines.  The pieces that are
      not blank, trimmed, are grouped into the chunks, one under 20 bytes going with the text before. */
  lemma ChunksExactly(content: string)
      returns (starts: seq<int>, sections: seq<string>, pieces: seq<string>, places: seq<nat>, heads: seq<nat>)
    ensures var document := Trim(content, SPACES);
            && SectionsAt(Split(document, "\n"), sections, starts)
            && pieces == (if |sections| >= 2 then CutLarge(sections) else Split(document, "\n\n"))
            && PlacesOfText(pieces, SPACES, places)
            && Groups(TextsAt(pieces, places), ChunksOf(content), heads)
  {
    hide SectionsAt, Sections, Split, Kept, Expand, Merged, Groups, TrimSpace, Bytes, CutLarge, Contains, Paragraphs, PlacesOfText;
    SpaceIsTrim(content);
    var document := TrimSpace(content);
    sections := Sections(Split(document, LINE));
    starts := SectionsAreExact(document);
    pieces := if |sections| >= 2 then CutLarge(sections) else Split(document, PARAGRAPH);
    TextsOfPieces(document, sections);
    places := KeptPlaces(pieces);
    PlacesInRange(pieces, places);
    assert TextsAt(pieces, places) == Kept(pieces);
    heads := MergedGroups(Kept(pieces));
    if document == "" { EmptyDocument(starts, sections, pieces); }
  }

  lemma PlacesInRange(pieces: seq<string>, places: seq<nat>)
    requires PlacesOfText(pieces, SPACES, places)
    ensures forall i :: 0 <= i < |places| ==> places[i] < |pieces|
  {}

  lemma TextsOfPieces(document: string, sections: seq<string>)
    requires sections == Sections(Split(document, "\n"))
    ensures Texts(document) == Kept(if |sections| >= 2 then CutLarge(sections) else Split(document, "\n\n"))
  {
    hide Sections, Split, Kept, Expand, Bytes, CutLarge, Contains;
    ExpandedPieces(sections);
    ParagraphsSmall(document);
    WholeParagraphs(Paragraphs(document));
    KeptTwice(Split(document, PARAGRAPH));
  }

  lemma SpaceIsTrim(s: string)
    ensures TrimSpace(s) == Trim(s, SPACES)
  {}

  lemma SplitNothing(sep: string)
    requires sep != ""
    ensures Split("", sep) == [""]
  {}

  lemma BlankAlone()
    ensures Kept([""]) == [] && Merged([]) == []
  {
    hide Bytes;
    assert TrimSpace("") == "";
    KeptSnoc([], "");
    assert [] + [""] == [""];
  }

  lemma EmptyDocument(starts: seq<int>, sections: seq<string>, pieces: seq<string>)
    requires SectionsAt(Split("", "\n"), sections, starts)
    requires pieces == if |sections| >= 2 then CutLarge(sections) else Split("", "\n\n")
    ensures Kept(pieces) == [] && Merged([]) == []
  {
    SplitNothing("\n");
    SplitNothing("\n\n");
    BlankAlone();
    hide Bytes, SectionsAt, Kept, Merged, Split, CutLarge;
    BlankHasNone([""], sections, starts);
  }

  // ---------------------------------------------------------------- in particular

  /** A chunk that starts with exactly this text: nothing follows it, or a blank line does. */
  predicate StartsWith(chunk: string, text: string) {
    chunk == text || HasPrefix(chunk, text + "\n\n")
  }

  lemma JoinStartsWith(texts: seq<string>)
    requires texts != []
    ensures StartsWith(Join(texts, "\n\n"), texts[0])
  {
    if |texts| > 1 { assert Join(texts, "\n\n")[..|texts[0] + "\n\n"|] == texts[0] + "\n\n"; }
  }

  /** Sections of 20 bytes trimmed and at most 2000 as they stand. */
  predicate Sized(section: string) {
    Bytes(Trim(section, SPACES)) >= 20 && Bytes(section) <= 2000
  }

  lemma {:induction false} SectionIsPiece(sections: seq<string>, i: nat) returns (k: nat)
    requires i < |sections| && Bytes(sections[i]) <= 2000
    ensures k == |CutLarge(sections[..i])| && k < |CutLarge(sections)| && CutLarge(sections)[k] == sections[i]
    ensures CutLarge(sections[..i + 1]) == CutLarge(sections[..i]) + [sections[i]]
    ensures CutLarge(sections[..i + 1]) <= CutLarge(sections)
    decreases |sections|
  {
    hide Bytes, Split;
    k := |CutLarge(sections[..i])|;
    var init := sections[..|sections| - 1];
    assert sections[..i + 1][..i] == sections[..i];
    if i + 1 == |sections| {
      assert sections[..i + 1] == sections;
    } else {
      assert init[..i] == sections[..i] && init[..i + 1] == sections[..i + 1];
      var _ := SectionIsPiece(init, i);
    }
  }

  /** A piece of at least 20 bytes, trimmed, begins a chunk. */
  lemma PieceBegins(pieces: seq<string>, places: seq<nat>, chunks: seq<string>, heads: seq<nat>, k: nat) returns (p: nat, c: nat)
    requires PlacesOfText(pieces, SPACES, places) && Groups(TextsAt(pieces, places), chunks, heads)
    requires k < |pieces| && Bytes(Trim(pieces[k], SPACES)) >= 20
    ensures p < |places| && places[p] == k && c < |heads| == |chunks| && heads[c] == p
    ensures StartsWith(chunks[c], Trim(pieces[k], SPACES))
  {
    hide Trim, Join, StartsWith;
    assert Trim(pieces[k], SPACES) != "" by { NothingHasNoBytes(); }
    assert k in places;
    p :| 0 <= p < |places| && places[p] == k;
    var texts := TextsAt(pieces, places);
    assert p in heads;
    c :| 0 <= c < |heads| && heads[c] == p;
    JoinStartsWith(texts[p..GroupEnd(texts, heads, c)]);
  }

  lemma NothingHasNoBytes()
    ensures Bytes("") == 0
  {}

  lemma EarlierIsEarlier(s: seq<nat>, i: nat, j: nat)
    requires forall i, j :: 0 <= i < j < |s| ==> s[i] < s[j]
    requires i < |s| && j < |s| && s[i] < s[j]
    ensures i < j
  {}

  lemma PiecesInOrder(sections: seq<string>, i: nat, j: nat)
    requires i < j < |sections| && Bytes(sections[i]) <= 2000
    ensures |CutLarge(sections[..i])| < |CutLarge(sections[..j])|
  {
    hide Bytes, CutLarge;
    var _ := SectionIsPiece(sections[..j], i);
    assert sections[..j][..i] == sections[..i] && sections[..j][..i + 1] == sections[..i + 1] && sections[..j][i] == sections[i];
    var _ := SectionIsPiece(sections, i);
  }

  /** With at least two sections, each one of such a size begins a chunk of its own, which starts with
      exactly its trimmed text; later sections begin later chunks. */
  lemma SectionsBeginChunks(content: string, sections: seq<string>, starts: seq<int>, i: nat, j: nat) returns (c: nat, d: nat)
    requires SectionsAt(Split(Trim(content, SPACES), "\n"), sections, starts) && |sections| >= 2
    requires i < j < |sections| && Sized(sections[i]) && Sized(sections[j])
    ensures c < d < |ChunksOf(content)|
    ensures StartsWith(ChunksOf(content)[c], Trim(sections[i], SPACES)) && StartsWith(ChunksOf(content)[d], Trim(sections[j], SPACES))
  {
    hide SectionsAt, Split, Groups, ChunksOf, CutLarge, Bytes, Trim, PlacesOfText, Heads, StartsWith, Contains;
    var starts', sections', pieces, places, heads := ChunksExactly(content);
    OneCut(Split(Trim(content, SPACES), "\n"), sections, starts, sections', starts');
    var a := SectionIsPiece(sections, i);
    var b := SectionIsPiece(sections, j);
    PlacesInRange(pieces, places);
    var p, q;
    p, c := PieceBegins(pieces, places, ChunksOf(content), heads, a);
    q, d := PieceBegins(pieces, places, ChunksOf(content), heads, b);
    PiecesInOrder(sections, i, j);
    InOrderOfPieces(pieces, places, ChunksOf(content), heads, p, q, c, d);
  }

  lemma InOrderOfPieces(pieces: seq<string>, places: seq<nat>, chunks: seq<string>, heads: seq<nat>, p: nat, q: nat, c: nat, d: nat)
    requires PlacesOfText(pieces, SPACES, places) && Groups(TextsAt(pieces, places), chunks, heads)
    requires p < |places| && q < |places| && places[p] < places[q] && c < |heads| && d < |heads| && heads[c] == p && heads[d] == q
    ensures c < d < |chunks|
  {
    hide Bytes, Join, Trim;
    EarlierIsEarlier(places, p, q);
    EarlierIsEarlier(heads, c, d);
  }

  lemma {:induction false} NoneIsLarge(sections: seq<string>)
    requires forall i :: 0 <= i < |sections| ==> Bytes(sections[i]) <= 2000
    ensures CutLarge(sections) == sections
  {
    hide Bytes;
    if sections != [] { NoneIsLarge(sections[..|sections| - 1]); }
  }

  /** Texts all of 20 bytes or more are the chunks themselves. */
  lemma LargeEnough(texts: seq<string>, chunks: seq<string>, heads: seq<nat>)
    requires Groups(texts, chunks, heads) && forall k :: 0 <= k < |texts| ==> Bytes(texts[k]) >= 20
    ensures chunks == texts
  {
    hide Bytes, Join;
    AllOf(heads, |texts|);
    hide Heads;
    forall i | 0 <= i < |heads| ensures chunks[i] == texts[i] {
      assert GroupEnd(texts, heads, i) == i + 1;
      Alone(texts, i);
    }
  }

  lemma Alone(texts: seq<string>, i: nat)
    requires i < |texts|
    ensures Join(texts[i..i + 1], "\n\n") == texts[i]
  {
    assert texts[i..i + 1] == [texts[i]];
  }

  lemma NotAfterLast(s: seq<nat>, i: nat)
    requires (forall i, j :: 0 <= i < j < |s| ==> s[i] < s[j]) && i < |s|
    ensures s[i] <= s[|s| - 1]
  {}

  /** An increasing list of all the numbers below n. */
  lemma {:induction false} AllOf(s: seq<nat>, n: nat)
    requires forall i, j :: 0 <= i < j < |s| ==> s[i] < s[j]
    requires (forall i :: 0 <= i < |s| ==> s[i] < n) && forall k :: 0 <= k < n ==> k in s
    ensures |s| == n && forall i :: 0 <= i < n ==> s[i] == i
    decreases n
  {
    if n == 0 {
      assert |s| == 0;
    } else {
      assert n - 1 in s;
      var last := |s| - 1;
      var i :| 0 <= i < |s| && s[i] == n - 1;
      NotAfterLast(s, i);
      forall k | 0 <= k < n - 1 ensures k in s[..last] {
        assert k in s;
        var j :| 0 <= j < |s| && s[j] == k;
        assert s[..last][j] == k;
      }
      AllOf(s[..last], n - 1);
    }
  }

  /** If every section is of such a size, the chunks are exactly the trimmed sections. */
  lemma SizedSectionsAreTheChunks(content: string, sections: seq<string>, starts: seq<int>)
    requires SectionsAt(Split(Trim(content, SPACES), "\n"), sections, starts) && |sections| >= 2
    requires forall i :: 0 <= i < |sections| ==> Sized(sections[i])
    ensures |ChunksOf(content)| == |sections|
    ensures forall i :: 0 <= i < |sections| ==> ChunksOf(content)[i] == Trim(sections[i], SPACES)
  {
    hide SectionsAt, Split, Groups, ChunksOf, CutLarge, Bytes, Trim, Contains;
    var starts', sections', pieces, places, heads := ChunksExactly(content);
    OneCut(Split(Trim(content, SPACES), "\n"), sections, starts, sections', starts');
    NoneIsLarge(sections);
    NothingHasNoBytes();
    forall i | 0 <= i < |sections| ensures Trim(sections[i], SPACES) != "" { assert Sized(sections[i]); }
    AllOf(places, |sections|);
    var texts := TextsAt(pieces, places);
    forall k | 0 <= k < |texts| ensures Bytes(texts[k]) >= 20 { assert Sized(sections[k]); }
    LargeEnough(texts, ChunksOf(content), heads);
  }

  /** The sections of a document are determined by where they start. */
  lemma OneCut(lines: seq<string>, sections: seq<string>, starts: seq<int>, sections': seq<string>, starts': seq<int>)
    requires SectionsAt(lines, sections, starts) && SectionsAt(lines, sections', starts')
    ensures sections == sections' && starts == starts'
  {
    hide Starts, Join;
    assert forall k :: k in starts <==> k in starts';
    SameIncreasing(starts, starts');
    assert forall i :: 0 <= i < |sections| ==> sections[i] == sections'[i];
  }

  lemma LastIsMost(s: seq<int>, k: int)
    requires Increasing(s) && k in s
    ensures s != [] && k <= s[|s| - 1]
  {
    var i :| 0 <= i < |s| && s[i] == k;
    assert i < |s| - 1 ==> s[i] < s[|s| - 1];
  }

  lemma InInit(s: seq<int>, k: int)
    requires Increasing(s) && s != []
    ensures k in s[..|s| - 1] <==> k in s && k != s[|s| - 1]
  {
    var n := |s| - 1;
    assert s == s[..n] + [s[n]];
    if k in s[..n] {
      var i :| 0 <= i < n && s[..n][i] == k;
      assert s[i] < s[n];
    }
  }

  /** Of two lists with the same members, neither ends beyond the other. */
  lemma EndIn(a: seq<int>, b: seq<int>)
    requires a != [] && Increasing(b) && forall k :: k in a <==> k in b
    ensures b != [] && a[|a| - 1] in b && a[|a| - 1] <= b[|b| - 1]
  {
    assert a[|a| - 1] in a;
    LastIsMost(b, a[|a| - 1]);
  }

  lemma {:induction false} SameIncreasing(a: seq<int>, b: seq<int>)
    requires Increasing(a) && Increasing(b) && forall k :: k in a <==> k in b
    ensures a == b
    decreases |a|
  {
    if a != [] {
      EndIn(a, b);
      EndIn(b, a);
      var m, a', b' := a[|a| - 1], a[..|a| - 1], b[..|b| - 1];
      forall k: int ensures k in a' <==> k in b' {
        InInit(a, k);
        InInit(b, k);
      }
      SameIncreasing(a', b');
      assert a == a' + [m] && b == b' + [m];
    } else if b != [] {
      EndIn(b, a);
    }
  }
}
