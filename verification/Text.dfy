/** The string operations of Go's `strings` package that the model relies on, for non-empty
    patterns, with leftmost non-overlapping matching.  A `char` stands for one byte, except in
    module Chunker, where it stands for one character. */
module Text {

  /** The concrete text `sub` stands at position `i` of `s`. */
  predicate OccursAt(s: string, sub: string, i: int) {
    0 <= i && i + |sub| <= |s| && s[i..i + |sub|] == sub
  }

  /** The leftmost occurrence at or after `from`, or -1. */
  function IndexFrom(s: string, sub: string, from: nat): (r: int)
    ensures r == -1 || (from <= r && OccursAt(s, sub, r))
    ensures forall j :: from <= j && (r < 0 || j < r) ==> !OccursAt(s, sub, j)
    decreases |s| - from
  {
    if from + |sub| > |s| then -1
    else if s[from..from + |sub|] == sub then from
    else IndexFrom(s, sub, from + 1)
  }

  /** `strings.Index`. */
  function Index(s: string, sub: string): (r: int)
    ensures r == -1 || OccursAt(s, sub, r)
    ensures forall j :: 0 <= j && (r < 0 || j < r) ==> !OccursAt(s, sub, j)
  {
    IndexFrom(s, sub, 0)
  }

  /** `strings.Contains`. */
  predicate Contains(s: string, sub: string)
    ensures Contains(s, sub) <==> exists i :: OccursAt(s, sub, i)
  {
    Index(s, sub) >= 0
  }

  /** `strings.LastIndex`. */
  function LastIndex(s: string, sub: string): (r: int)
    ensures r == -1 || OccursAt(s, sub, r)
    ensures forall j :: r < j ==> !OccursAt(s, sub, j)
  {
    LastIndexUpTo(s, sub, |s|)
  }

  function LastIndexUpTo(s: string, sub: string, hi: nat): (r: int)
    requires hi <= |s|
    ensures r == -1 || (r <= hi && OccursAt(s, sub, r))
    ensures forall j :: r < j <= hi ==> !OccursAt(s, sub, j)
  {
    if OccursAt(s, sub, hi) then hi else if hi == 0 then -1 else LastIndexUpTo(s, sub, hi - 1)
  }

  predicate HasPrefix(s: string, p: string) {
    |p| <= |s| && s[..|p|] == p
  }

  /** `strings.Join`. */
  function Join(parts: seq<string>, sep: string): string {
    if |parts| == 0 then ""
    else if |parts| == 1 then parts[0]
    else parts[0] + sep + Join(parts[1..], sep)
  }

  /** `strings.Split`: cut at every leftmost, non-overlapping separator. */
  function Split(s: string, sep: string): (parts: seq<string>)
    requires |sep| > 0
    ensures |parts| >= 1 && Join(parts, sep) == s
    ensures forall p <- parts :: !Contains(p, sep)
    decreases |s|
  {
    var i := Index(s, sep);
    if i < 0 then [s] else
      assert s == s[..i] + sep + s[i + |sep|..];
      assert !Contains(s[..i], sep) by {
        forall j | 0 <= j && j + |sep| <= i ensures !OccursAt(s[..i], sep, j) {
          assert s[..i][j..j + |sep|] == s[j..j + |sep|];
          assert !OccursAt(s, sep, j);
        }
      }
      [s[..i]] + Split(s[i + |sep|..], sep)
  }

  /** `strings.ReplaceAll`. */
  function ReplaceAll(s: string, old_: string, new_: string): string
    requires |old_| > 0
  {
    Join(Split(s, old_), new_)
  }

  function TrimLeft(s: string, cut: set<char>): (r: string)
    ensures |r| <= |s| && r == s[|s| - |r|..]
    ensures r != "" ==> r[0] !in cut
    ensures forall i :: 0 <= i < |s| - |r| ==> s[i] in cut
  {
    if s != "" && s[0] in cut then TrimLeft(s[1..], cut) else s
  }

  function TrimRight(s: string, cut: set<char>): (r: string)
    ensures |r| <= |s| && r == s[..|r|]
    ensures r != "" ==> r[|r| - 1] !in cut
    ensures forall i :: |r| <= i < |s| ==> s[i] in cut
  {
    if s != "" && s[|s| - 1] in cut then TrimRight(s[..|s| - 1], cut) else s
  }

  /** `strings.Trim`. */
  function Trim(s: string, cut: set<char>): (r: string)
    ensures r != "" ==> r[0] !in cut && r[|r| - 1] !in cut
    ensures |r| <= |s|
  {
    TrimRight(TrimLeft(s, cut), cut)
  }

  /** Text that begins and ends outside the cut set. */
  predicate Trimmed(s: string, cut: set<char>) {
    s != "" ==> s[0] !in cut && s[|s| - 1] !in cut
  }

  lemma {:induction false} TrimLeftAll(s: string, cut: set<char>)
    requires forall c <- s :: c in cut
    ensures TrimLeft(s, cut) == ""
  {
    if s != "" { TrimLeftAll(s[1..], cut); }
  }

  lemma {:induction false} TrimLeftSkips(pre: string, s: string, cut: set<char>)
    requires forall c <- pre :: c in cut
    ensures TrimLeft(pre + s, cut) == TrimLeft(s, cut)
  {
    if pre == "" {
      assert pre + s == s;
    } else {
      assert (pre + s)[1..] == pre[1..] + s;
      TrimLeftSkips(pre[1..], s, cut);
    }
  }

  lemma {:induction false} TrimRightSkips(s: string, post: string, cut: set<char>)
    requires forall c <- post :: c in cut
    ensures TrimRight(s + post, cut) == TrimRight(s, cut)
  {
    if post == "" {
      assert s + post == s;
    } else {
      assert (s + post)[..|s + post| - 1] == s + post[..|post| - 1];
      TrimRightSkips(s, post[..|post| - 1], cut);
    }
  }

  /** Cut characters put around trimmed text are exactly what `Trim` takes away. */
  lemma TrimAround(pre: string, s: string, post: string, cut: set<char>)
    requires forall c <- pre :: c in cut
    requires forall c <- post :: c in cut
    requires Trimmed(s, cut)
    ensures Trim(pre + s + post, cut) == s
  {
    assert pre + s + post == pre + (s + post);
    TrimLeftSkips(pre, s + post, cut);
    if s == "" {
      assert s + post == post;
      TrimLeftAll(post, cut);
    } else {
      assert TrimLeft(s + post, cut) == s + post;
      TrimRightSkips(s, post, cut);
    }
  }

  /** Trimming leaves a stretch of the text with only cut characters on either side of it. */
  lemma TrimStretch(s: string, cut: set<char>) returns (lo: nat, hi: nat)
    ensures lo <= hi <= |s| && Trim(s, cut) == s[lo..hi]
    ensures forall i :: 0 <= i < |s| && !(lo <= i < hi) ==> s[i] in cut
  {
    hide TrimLeft, TrimRight;
    var left := TrimLeft(s, cut);
    var right := TrimRight(left, cut);
    lo, hi := |s| - |left|, |s| - |left| + |right|;
    assert s[lo..hi] == left[..|right|];
    forall i | hi <= i < |s| ensures s[i] in cut { assert s[i] == left[i - lo]; }
  }

  predicate AllIn(s: string, cut: set<char>) {
    forall i :: 0 <= i < |s| ==> s[i] in cut
  }

  /** Trimming, said without an algorithm: the one text that neither begins nor ends in the cut set
      and has only cut characters around it. */
  lemma TrimExact(s: string, cut: set<char>, t: string)
    ensures t == Trim(s, cut) <==>
              Trimmed(t, cut) && exists pre, post :: s == pre + t + post && AllIn(pre, cut) && AllIn(post, cut)
  {
    hide Trim;
    if t == Trim(s, cut) {
      var lo, hi := TrimStretch(s, cut);
      assert s == s[..lo] + t + s[hi..] && AllIn(s[..lo], cut) && AllIn(s[hi..], cut);
    }
    if Trimmed(t, cut) && exists pre, post :: s == pre + t + post && AllIn(pre, cut) && AllIn(post, cut) {
      var pre, post :| s == pre + t + post && AllIn(pre, cut) && AllIn(post, cut);
      TrimAround(pre, t, post, cut);
    }
  }

  /** The places of the parts that are not all cut characters, in order. */
  ghost predicate PlacesOfText(parts: seq<string>, cut: set<char>, places: seq<nat>) {
    && (forall i, j :: 0 <= i < j < |places| ==> places[i] < places[j])
    && (forall i :: 0 <= i < |places| ==> places[i] < |parts|)
    && (forall k :: 0 <= k < |parts| ==> (k in places <==> Trim(parts[k], cut) != ""))
  }

  lemma PlacesSnoc(parts: seq<string>, cut: set<char>, places: seq<nat>, last: string)
    requires PlacesOfText(parts, cut, places)
    ensures PlacesOfText(parts + [last], cut, if Trim(last, cut) == "" then places else places + [|parts|])
  {
    hide Trim;
    var all, more := parts + [last], places + [|parts|];
    forall k | 0 <= k < |all| ensures Trim(all[k], cut) != "" <==> k in (if Trim(last, cut) == "" then places else more) {
      if k < |parts| {
        assert all[k] == parts[k];
        assert k in more <==> k in places;
      } else {
        assert more[|places|] == k;
      }
    }
  }

  /** The separator cannot start inside `p` when it follows `p`: the only way it could is by
      overlapping itself. */
  predicate Separates(p: string, sep: string) {
    forall i :: 0 <= i < |p| ==> !OccursAt(p + sep, sep, i)
  }

  lemma SplitHead(p: string, sep: string, rest: string)
    requires |sep| > 0 && Separates(p, sep)
    ensures Split(p + sep + rest, sep) == [p] + Split(rest, sep)
  {
    var s := p + sep + rest;
    forall i | 0 <= i < |p| ensures !OccursAt(s, sep, i) {
      assert s[..|p + sep|] == p + sep;
      assert i + |sep| <= |s| && s[i..i + |sep|] == (p + sep)[i..i + |sep|];
      assert !OccursAt(p + sep, sep, i);
    }
    assert OccursAt(s, sep, |p|);
    assert Index(s, sep) == |p|;
    assert s[..|p|] == p && s[|p| + |sep|..] == rest;
  }

  lemma SplitNone(s: string, sep: string)
    requires |sep| > 0 && !Contains(s, sep)
    ensures Split(s, sep) == [s]
  {}

  /** Splitting undoes joining when no part can hide or complete a separator. */
  lemma {:induction false} SplitJoin(parts: seq<string>, sep: string)
    requires |sep| > 0 && |parts| >= 1
    requires !Contains(parts[|parts| - 1], sep)
    requires forall p <- parts[..|parts| - 1] :: Separates(p, sep)
    ensures Split(Join(parts, sep), sep) == parts
  {
    if |parts| == 1 {
      SplitNone(parts[0], sep);
    } else {
      assert parts[..|parts| - 1][0] == parts[0];
      forall p | p in parts[1..][..|parts[1..]| - 1] ensures Separates(p, sep) {
        assert p in parts[..|parts| - 1];
      }
      SplitJoin(parts[1..], sep);
      SplitHead(parts[0], sep, Join(parts[1..], sep));
    }
  }

  /** Every part but the last is cut at the leftmost place. */
  lemma {:induction false} SplitSeparates(s: string, sep: string)
    requires |sep| > 0
    ensures var parts := Split(s, sep); forall k :: 0 <= k < |parts| - 1 ==> Separates(parts[k], sep)
    decreases |s|
  {
    var i := Index(s, sep);
    if i >= 0 {
      var rest := s[i + |sep|..];
      SplitSeparates(rest, sep);
      assert Separates(s[..i], sep) by {
        assert s[..i] + sep == s[..i + |sep|];
        forall j | 0 <= j < i ensures !OccursAt(s[..i] + sep, sep, j) {
          assert !OccursAt(s, sep, j);
          assert j + |sep| <= i + |sep| && s[..i + |sep|][j..j + |sep|] == s[j..j + |sep|];
        }
      }
      assert Split(s, sep) == [s[..i]] + Split(rest, sep);
    }
  }

  /** Leftmost, non-overlapping cutting, said without an algorithm: these parts and no others join to
      the text, with no separator in the last and none starting inside any other. */
  lemma SplitExact(s: string, sep: string, parts: seq<string>)
    requires |sep| > 0
    ensures parts == Split(s, sep) <==>
              && |parts| >= 1 && Join(parts, sep) == s && !Contains(parts[|parts| - 1], sep)
              && forall k :: 0 <= k < |parts| - 1 ==> Separates(parts[k], sep)
  {
    hide Separates, Contains, Join, Split;
    SplitSeparates(s, sep);
    var cut := Split(s, sep);
    assert cut[|cut| - 1] in cut;
    if |parts| >= 1 && Join(parts, sep) == s && !Contains(parts[|parts| - 1], sep)
       && forall k :: 0 <= k < |parts| - 1 ==> Separates(parts[k], sep) {
      SplitJoin(parts, sep);
    }
  }

  /** A replacement changes nothing when the pattern is absent. */
  lemma ReplaceNone(s: string, old_: string, new_: string)
    requires |old_| > 0 && !Contains(s, old_)
    ensures ReplaceAll(s, old_, new_) == s
  {
    SplitNone(s, old_);
  }

  lemma OccursAfter(a: string, s: string, sub: string, i: int)
    requires i >= |a|
    ensures OccursAt(a + s, sub, i) <==> OccursAt(s, sub, i - |a|)
  {
    if i + |sub| <= |a + s| { assert (a + s)[i..i + |sub|] == s[i - |a|..i - |a| + |sub|]; }
  }

  /** Replacing goes from left to right: an occurrence at the front is replaced and skipped, and any
      other first character stays. */
  lemma ReplacesFromLeft(s: string, old_: string, new_: string)
    requires |old_| > 0
    ensures ReplaceAll("", old_, new_) == ""
    ensures s != "" ==>
              (ReplaceAll(s, old_, new_) == if HasPrefix(s, old_) then new_ + ReplaceAll(s[|old_|..], old_, new_)
                                            else [s[0]] + ReplaceAll(s[1..], old_, new_))
  {
    hide Contains;
    SplitNone("", old_);
    if s != "" {
      if HasPrefix(s, old_) {
        assert OccursAt(s, old_, 0);
        assert Index(s, old_) == 0 && s[..0] == "";
        var rest := Split(s[|old_|..], old_);
        assert Split(s, old_) == [""] + rest;
        JoinFirst("", rest, new_);
      } else {
        SplitSkips(s, old_);
        var rest := Split(s[1..], old_);
        JoinLonger(s[0], rest, new_);
      }
    }
  }

  lemma JoinFirst(first: string, rest: seq<string>, sep: string)
    requires rest != []
    ensures Join([first] + rest, sep) == first + sep + Join(rest, sep)
  {
    assert ([first] + rest)[1..] == rest;
  }

  lemma JoinLonger(c: char, parts: seq<string>, sep: string)
    requires parts != []
    ensures Join([[c] + parts[0]] + parts[1..], sep) == [c] + Join(parts, sep)
  {
    if |parts| > 1 {
      assert ([[c] + parts[0]] + parts[1..])[1..] == parts[1..];
      assert [c] + parts[0] + sep + Join(parts[1..], sep) == [c] + (parts[0] + sep + Join(parts[1..], sep));
    }
  }

  lemma IndexShifts(s: string, sub: string)
    requires s != "" && !HasPrefix(s, sub)
    ensures Index(s, sub) == if Index(s[1..], sub) < 0 then -1 else Index(s[1..], sub) + 1
  {
    hide OccursAt, Index;
    assert !OccursAt(s, sub, 0) by { NotAtFront(s, sub); }
    forall i | i >= 1 ensures OccursAt(s, sub, i) <==> OccursAt(s[1..], sub, i - 1) {
      OccursAfter([s[0]], s[1..], sub, i);
      assert [s[0]] + s[1..] == s;
    }
    var i, j := Index(s, sub), Index(s[1..], sub);
    if j >= 0 { assert OccursAt(s, sub, j + 1); }
    if i >= 1 { assert OccursAt(s[1..], sub, i - 1); }
    OccursFromZero(s, sub, i);
    OccursFromZero(s[1..], sub, j);
  }

  lemma NotAtFront(s: string, sub: string)
    requires !HasPrefix(s, sub)
    ensures !OccursAt(s, sub, 0)
  {}

  lemma OccursFromZero(s: string, sub: string, i: int)
    ensures OccursAt(s, sub, i) ==> i >= 0
  {}

  /** A character that does not begin a separator joins the part after it. */
  lemma SplitSkips(s: string, sep: string)
    requires |sep| > 0 && s != "" && !HasPrefix(s, sep)
    ensures var rest := Split(s[1..], sep); Split(s, sep) == [[s[0]] + rest[0]] + rest[1..]
  {
    hide Contains, Index, OccursAt, HasPrefix;
    IndexShifts(s, sep);
    var t, j := s[1..], Index(s[1..], sep);
    if j < 0 {
      assert [s[0]] + t == s;
    } else {
      InBounds(t, sep, j);
      InBounds(s, sep, j + 1);
      assert s[..j + 1] == [s[0]] + t[..j] && s[j + 1 + |sep|..] == t[j + |sep|..];
    }
  }

  lemma InBounds(s: string, sub: string, i: int)
    ensures OccursAt(s, sub, i) ==> 0 <= i <= |s| - |sub|
  {}

  lemma {:induction false} JoinAppend(parts: seq<string>, last: string, sep: string)
    requires |parts| >= 1
    ensures Join(parts + [last], sep) == Join(parts, sep) + sep + last
  {
    if |parts| == 1 {
      assert (parts + [last])[1..] == [last];
    } else {
      assert (parts + [last])[1..] == parts[1..] + [last];
      JoinAppend(parts[1..], last, sep);
      assert parts[0] + sep + (Join(parts[1..], sep) + sep + last) == parts[0] + sep + Join(parts[1..], sep) + sep + last;
    }
  }

  /** A one-line pattern lies on one side of any line break. */
  lemma LineBreakSeparates(a: string, b: string, tag: string)
    requires |tag| > 0 && '\n' !in tag
    requires a == "" || a[|a| - 1] == '\n' || b == "" || b[0] == '\n'
    requires !Contains(a, tag) && !Contains(b, tag)
    ensures !Contains(a + b, tag)
  {
    forall i | 0 <= i && i + |tag| <= |a + b| ensures !OccursAt(a + b, tag, i) {
      if i + |tag| <= |a| {
        assert (a + b)[i..i + |tag|] == a[i..i + |tag|];
        assert !OccursAt(a, tag, i);
      } else if i >= |a| {
        assert (a + b)[i..i + |tag|] == b[i - |a|..i - |a| + |tag|];
        assert !OccursAt(b, tag, i - |a|);
      } else {
        var w := (a + b)[i..i + |tag|];
        assert w[|a| - 1 - i] == a[|a| - 1];
        assert w[|a| - i] == b[0];
      }
    }
  }

  lemma {:induction false} JoinLacks(parts: seq<string>, sep: string, tag: string)
    requires |tag| > 0 && '\n' !in tag
    requires |sep| > 0 && sep[0] == '\n' && sep[|sep| - 1] == '\n' && !Contains(sep, tag)
    requires forall p <- parts :: !Contains(p, tag)
    ensures !Contains(Join(parts, sep), tag)
  {
    if |parts| > 1 {
      JoinLacks(parts[1..], sep, tag);
      LineBreakSeparates(parts[0], sep, tag);
      LineBreakSeparates(parts[0] + sep, Join(parts[1..], sep), tag);
    }
  }

  /** Text free of a pattern's first character is free of the pattern. */
  lemma LacksFirst(s: string, sub: string)
    requires |sub| > 0 && sub[0] !in s
    ensures !Contains(s, sub)
  {
    forall i | 0 <= i && i + |sub| <= |s| ensures !OccursAt(s, sub, i) {
      assert s[i..i + |sub|][0] == s[i];
    }
  }

  /** A pattern absent from a text is absent from every stretch of it. */
  lemma StretchLacks(s: string, lo: nat, hi: nat, sub: string)
    requires lo <= hi <= |s| && !Contains(s, sub)
    ensures !Contains(s[lo..hi], sub)
  {
    forall i | 0 <= i && i + |sub| <= hi - lo ensures !OccursAt(s[lo..hi], sub, i) {
      var t := s[lo..hi];
      var inner, outer := t[i..i + |sub|], s[lo + i..lo + i + |sub|];
      assert forall k :: 0 <= k < |sub| ==> inner[k] == outer[k];
      assert inner == outer;
      assert !OccursAt(s, sub, lo + i);
    }
  }

  /** Total length of a list of texts. */
  function TotalLength(parts: seq<string>): nat {
    if parts == [] then 0 else |parts[0]| + TotalLength(parts[1..])
  }

  lemma {:induction false} TotalLengthConcat(a: seq<string>, b: seq<string>)
    ensures TotalLength(a + b) == TotalLength(a) + TotalLength(b)
  {
    if a == [] {
      assert a + b == b;
    } else {
      assert (a + b)[1..] == a[1..] + b;
      TotalLengthConcat(a[1..], b);
    }
  }
}
