/** The managed block of a user's crontab: finding it, removing it, and merging a new one in. */
module Crontab {
  import opened Wrappers
  import opened Text

  datatype Markers = Markers(begin: string, end: string)

  const SELFTUNE := Markers("# BEGIN SELFTUNE", "# END SELFTUNE")

  /** A marker starts with `#`, and nothing else in it is `#` or a line feed. */
  predicate IsMarker(m: string) {
    m != "" && m[0] == '#' && forall i | 0 < i < |m| :: m[i] != '#' && m[i] != '\n' && m[i] != '\r'
  }

  predicate AreMarkers(m: Markers) {
    IsMarker(m.begin) && IsMarker(m.end) && !(m.end <= m.begin)
  }

  function FindFrom(s: string, pattern: string, k: nat): (r: Option<nat>)
    requires k <= |s|
    ensures r.Some? ==> k <= r.value && r.value + |pattern| <= |s|
    decreases |s| - k
  {
    if Occurs(s, pattern, k) then Some(k) else if k == |s| then None else FindFrom(s, pattern, k + 1)
  }

  /** The first occurrence. */
  function Find(s: string, pattern: string): (r: Option<nat>)
    ensures r.Some? ==> r.value + |pattern| <= |s|
  {
    FindFrom(s, pattern, 0)
  }

  lemma {:induction false} FindFromFirst(s: string, pattern: string, k: nat)
    requires k <= |s|
    ensures FindFrom(s, pattern, k) == None ==> forall i | k <= i <= |s| :: !Occurs(s, pattern, i)
    ensures FindFrom(s, pattern, k).Some? ==>
              && Occurs(s, pattern, FindFrom(s, pattern, k).value)
              && forall i | k <= i < FindFrom(s, pattern, k).value :: !Occurs(s, pattern, i)
    decreases |s| - k
  {
    if !Occurs(s, pattern, k) && k < |s| {
      FindFromFirst(s, pattern, k + 1);
    }
  }

  lemma FindFirst(s: string, pattern: string)
    ensures Find(s, pattern) == None <==> !Contains(s, pattern)
    ensures Find(s, pattern).Some? ==>
              Occurs(s, pattern, Find(s, pattern).value) && forall k | 0 <= k < Find(s, pattern).value :: !Occurs(s, pattern, k)
  {
    FindFromFirst(s, pattern, 0);
  }

  lemma FindIs(s: string, pattern: string, k: nat)
    requires Occurs(s, pattern, k) && forall i | 0 <= i < k :: !Occurs(s, pattern, i)
    ensures Find(s, pattern) == Some(k)
  {
    FindFirst(s, pattern);
    assert Contains(s, pattern);
  }

  /** A line feed right after the end marker belongs to the block. */
  function AfterFeed(s: string, k: nat): nat {
    if k < |s| && s[k] == '\n' then k + 1 else k
  }

  /** Where the first block lies: its begin, the begin of its end marker, and what follows it. */
  function FirstBlock(m: Markers, s: string): (r: Option<(nat, nat, nat)>)
    ensures r.Some? ==> r.value.0 + |m.begin| <= r.value.1 && r.value.1 + |m.end| <= r.value.2 <= |s|
  {
    var begin := Find(s, m.begin);
    if begin == None then None
    else
      var inner := begin.value + |m.begin|;
      var end := Find(s[inner..], m.end);
      if end == None then None
      else Some((begin.value, inner + end.value, AfterFeed(s, inner + end.value + |m.end|)))
  }

  /** The text without its blocks. */
  function Remove(m: Markers, s: string): string
    requires AreMarkers(m)
    decreases |s|
  {
    var block := FirstBlock(m, s);
    if block == None then s else s[..block.value.0] + Remove(m, s[block.value.2..])
  }

  /** What stands between the markers, block by block. */
  function Blocks(m: Markers, s: string): seq<string>
    requires AreMarkers(m)
    decreases |s|
  {
    var block := FirstBlock(m, s);
    if block == None then [] else [s[block.value.0 + |m.begin|..block.value.1]] + Blocks(m, s[block.value.2..])
  }

  /** Carriage returns before line feeds go. */
  function Normalize(s: string): string {
    if s == "" then ""
    else if 2 <= |s| && s[0] == '\r' && s[1] == '\n' then "\n" + Normalize(s[2..])
    else [s[0]] + Normalize(s[1..])
  }

  function Wrap(m: Markers, content: string): string {
    m.begin + "\n" + Trim(content) + "\n" + m.end + "\n"
  }

  /** The user's own part of a crontab. */
  function Clean(m: Markers, existing: string): string
    requires AreMarkers(m)
  {
    TrimEnd(Remove(m, Normalize(existing)))
  }

  function Merge(m: Markers, existing: string, content: string): string
    requires AreMarkers(m)
  {
    var user := Clean(m, existing);
    if user == "" then Wrap(m, content) else user + "\n\n" + Wrap(m, content)
  }

  // ----- occurrences in a concatenation -----

  /** No marker straddles the seam before a line feed or another marker. */
  lemma OccursBefore(a: string, b: string, m: string, k: nat)
    requires IsMarker(m) && SeamBefore(b)
    requires k < |a|
    ensures Occurs(a + b, m, k) == Occurs(a, m, k)
  {
    if k + |m| <= |a| {
      assert (a + b)[..|a|] == a;
      OccursInFront(a + b, m, |a|, k);
    } else {
      DiffersAt(a + b, m, k, |a| - k);
    }
  }

  lemma OccursAfter(a: string, b: string, m: string, k: nat)
    ensures Occurs(a + b, m, |a| + k) == Occurs(b, m, k)
  {
    assert (a + b)[|a|..] == b;
    OccursBehind(a + b, m, |a|, k);
  }

  predicate SeamBefore(b: string) {
    b == "" || b[0] == '\n' || b[0] == '#' || b[0] == '\r'
  }

  lemma OccursAcross(a: string, b: string, m: string, k: nat)
    requires IsMarker(m) && SeamBefore(b)
    ensures Occurs(a + b, m, k) == if k < |a| then Occurs(a, m, k) else Occurs(b, m, k - |a|)
  {
    if k < |a| {
      OccursBefore(a, b, m, k);
    } else {
      OccursAfter(a, b, m, k - |a|);
    }
  }

  /** The first marker lies in front of the seam if there is one, */
  lemma FindInFront(a: string, b: string, m: string)
    requires IsMarker(m) && SeamBefore(b) && Contains(a, m)
    ensures Find(a, m).Some? && Find(a, m).value < |a| && Find(a + b, m) == Find(a, m)
  {
    FindFirst(a, m);
    var k := Find(a, m).value;
    forall i: nat | i <= k ensures Occurs(a + b, m, i) == Occurs(a, m, i) {
      OccursAcross(a, b, m, i);
    }
    FindIs(a + b, m, k);
  }

  /** and else behind it. */
  lemma MarkerAt(a: string, b: string, m: string)
    requires IsMarker(m) && !Contains(a, m) && m <= b
    ensures Find(a + b, m) == Some(|a|)
  {
    forall i: nat | i <= |a| ensures Occurs(a + b, m, i) <==> i == |a| {
      OccursAcross(a, b, m, i);
      assert i < |a| ==> !Occurs(a, m, i);
      assert Occurs(b, m, 0);
    }
    FindIs(a + b, m, |a|);
  }

  lemma NotAcross(a: string, b: string, m: string)
    requires IsMarker(m) && SeamBefore(b) && !Contains(a, m) && !Contains(b, m)
    ensures !Contains(a + b, m)
  {
    forall i: nat | i <= |a + b| ensures !Occurs(a + b, m, i) {
      OccursAcross(a, b, m, i);
      assert i < |a| ==> !Occurs(a, m, i);
      assert i >= |a| ==> !Occurs(b, m, i - |a|);
    }
  }

  // ----- removing -----

  function Feed(feed: bool): string {
    if feed then "\n" else ""
  }

  /** A block, and what follows it. */
  function BlockThen(m: Markers, inner: string, feed: bool, rest: string): string {
    m.begin + (inner + (m.end + (Feed(feed) + rest)))
  }

  lemma AfterBegin(m: Markers, text: string, body: string)
    ensures (text + (m.begin + body))[|text| + |m.begin|..] == body
  {
  }

  lemma AfterEnd(m: Markers, text: string, inner: string, feed: bool, rest: string)
    requires !feed ==> rest == "" || rest[0] != '\n'
    ensures
      var s := text + BlockThen(m, inner, feed, rest);
      AfterFeed(s, |text| + |m.begin| + |inner| + |m.end|) == |s| - |rest|
  {
    var front := text + m.begin + inner + m.end;
    var s := text + BlockThen(m, inner, feed, rest);
    assert s == front + (Feed(feed) + rest);
  }

  /** The first block of plain text, a block, and anything that follows. */
  lemma FirstBlockAt(m: Markers, text: string, inner: string, feed: bool, rest: string)
    requires AreMarkers(m) && !Contains(text, m.begin) && !Contains(inner, m.end)
    requires !feed ==> rest == "" || rest[0] != '\n'
    ensures
      var s := text + BlockThen(m, inner, feed, rest);
      FirstBlock(m, s) == Some((|text|, |text| + |m.begin| + |inner|, |s| - |rest|))
  {
    var s := text + BlockThen(m, inner, feed, rest);
    assert Find(s, m.begin) == Some(|text|) by {
      MarkerAt(text, BlockThen(m, inner, feed, rest), m.begin);
    }
    assert Find(s[|text| + |m.begin|..], m.end) == Some(|inner|) by {
      AfterBegin(m, text, inner + (m.end + (Feed(feed) + rest)));
      MarkerAt(inner, m.end + (Feed(feed) + rest), m.end);
    }
    AfterEnd(m, text, inner, feed, rest);
  }

  /** Removing takes exactly that block, */
  lemma RemoveFirst(m: Markers, text: string, inner: string, feed: bool, rest: string)
    requires AreMarkers(m) && !Contains(text, m.begin) && !Contains(inner, m.end)
    requires !feed ==> rest == "" || rest[0] != '\n'
    ensures Remove(m, text + BlockThen(m, inner, feed, rest)) == text + Remove(m, rest)
  {
    var s := text + BlockThen(m, inner, feed, rest);
    var i, j, k := |text|, |text| + |m.begin| + |inner|, |s| - |rest|;
    assert FirstBlock(m, s) == Some((i, j, k)) by {
      FirstBlockAt(m, text, inner, feed, rest);
    }
    assert s[..i] == text && s[k..] == rest by {
      BlockParts(m, text, inner, feed, rest);
    }
    RemoveAs(m, s, i, j, k, text, rest);
  }

  /** and what was in it is reported. */
  lemma BlocksFirst(m: Markers, text: string, inner: string, feed: bool, rest: string)
    requires AreMarkers(m) && !Contains(text, m.begin) && !Contains(inner, m.end)
    requires !feed ==> rest == "" || rest[0] != '\n'
    ensures Blocks(m, text + BlockThen(m, inner, feed, rest)) == [inner] + Blocks(m, rest)
  {
    var s := text + BlockThen(m, inner, feed, rest);
    var i, j, k := |text|, |text| + |m.begin| + |inner|, |s| - |rest|;
    assert FirstBlock(m, s) == Some((i, j, k)) by {
      FirstBlockAt(m, text, inner, feed, rest);
    }
    BlocksAt(m, s, i, j, k);
    assert s[k..] == rest && s[i + |m.begin|..j] == inner by {
      BlockParts(m, text, inner, feed, rest);
    }
  }

  lemma RemoveAt(m: Markers, s: string, i: nat, j: nat, k: nat)
    requires AreMarkers(m) && FirstBlock(m, s) == Some((i, j, k))
    ensures Remove(m, s) == s[..i] + Remove(m, s[k..])
  {
  }

  lemma RemoveAs(m: Markers, s: string, i: nat, j: nat, k: nat, front: string, rest: string)
    requires AreMarkers(m) && FirstBlock(m, s) == Some((i, j, k)) && s[..i] == front && s[k..] == rest
    ensures Remove(m, s) == front + Remove(m, rest)
  {
    RemoveAt(m, s, i, j, k);
  }

  lemma BlocksAt(m: Markers, s: string, i: nat, j: nat, k: nat)
    requires AreMarkers(m) && FirstBlock(m, s) == Some((i, j, k))
    ensures Blocks(m, s) == [s[i + |m.begin|..j]] + Blocks(m, s[k..])
  {
    var block := FirstBlock(m, s);
    assert block.value.0 == i && block.value.1 == j && block.value.2 == k;
  }

  lemma BlockParts(m: Markers, text: string, inner: string, feed: bool, rest: string)
    ensures
      var s := text + BlockThen(m, inner, feed, rest);
      && s[..|text|] == text && s[|s| - |rest|..] == rest
      && s[|text| + |m.begin|..|text| + |m.begin| + |inner|] == inner
  {
    var front := text + m.begin + inner + m.end + Feed(feed);
    assert text + BlockThen(m, inner, feed, rest) == front + rest;
    assert (front + rest)[|front|..] == rest;
  }

  lemma NotFound(s: string, pattern: string)
    requires !Contains(s, pattern)
    ensures Find(s, pattern) == None
  {
    FindFirst(s, pattern);
  }

  lemma RemoveNothing(m: Markers, s: string)
    requires AreMarkers(m) && !Contains(s, m.begin)
    ensures Remove(m, s) == s && Blocks(m, s) == []
  {
    NotFound(s, m.begin);
  }

  /** A crontab as written down piece by piece: the user's lines and managed blocks. */
  datatype Piece = Text(text: string) | Block(inner: string, feed: bool)

  function Render(m: Markers, pieces: seq<Piece>): string {
    if pieces == [] then ""
    else
      match pieces[0]
      case Text(text) => text + Render(m, pieces[1..])
      case Block(inner, feed) => BlockThen(m, inner, feed, Render(m, pieces[1..]))
  }

  function Texts(pieces: seq<Piece>): string {
    if pieces == [] then "" else (if pieces[0].Text? then pieces[0].text else "") + Texts(pieces[1..])
  }

  function Inners(pieces: seq<Piece>): seq<string> {
    if pieces == [] then [] else (if pieces[0].Block? then [pieces[0].inner] else []) + Inners(pieces[1..])
  }

  /** Every begin marker has its end marker: user text, block, user text, and so on. */
  ghost predicate WellFormed(m: Markers, pieces: seq<Piece>) {
    if pieces == [] then true
    else
      match pieces[0]
      case Text(text) => !Contains(text, m.begin) && (|pieces| > 1 ==> pieces[1].Block?) && WellFormed(m, pieces[1..])
      case Block(inner, feed) =>
        !Contains(inner, m.end) && (!feed ==> var rest := Render(m, pieces[1..]); rest == "" || rest[0] != '\n') && WellFormed(m, pieces[1..])
  }

  /** From a well-formed crontab exactly the user's text is kept, and exactly the managed blocks are found. */
  lemma {:induction false} RemoveKeepsText(m: Markers, pieces: seq<Piece>)
    requires AreMarkers(m) && WellFormed(m, pieces)
    ensures Remove(m, Render(m, pieces)) == Texts(pieces) && Blocks(m, Render(m, pieces)) == Inners(pieces)
  {
    if pieces == [] {
      assert !Contains("", m.begin);
      RemoveNothing(m, "");
    } else if pieces[0].Block? {
      var rest := Render(m, pieces[1..]);
      RemoveKeepsText(m, pieces[1..]);
      RemoveFirst(m, "", pieces[0].inner, pieces[0].feed, rest);
      BlocksFirst(m, "", pieces[0].inner, pieces[0].feed, rest);
      assert "" + BlockThen(m, pieces[0].inner, pieces[0].feed, rest) == Render(m, pieces);
    } else if |pieces| == 1 {
      RemoveNothing(m, pieces[0].text);
      assert pieces[1..] == [] && pieces[0].text + "" == pieces[0].text;
    } else {
      assert pieces[1..][1..] == pieces[2..] && pieces[1..][0] == pieces[1];
      var later := Render(m, pieces[2..]);
      RemoveKeepsText(m, pieces[2..]);
      RemoveFirst(m, pieces[0].text, pieces[1].inner, pieces[1].feed, later);
      BlocksFirst(m, pieces[0].text, pieces[1].inner, pieces[1].feed, later);
      assert Texts(pieces[1..]) == "" + Texts(pieces[2..]) == Texts(pieces[2..]);
      assert Inners(pieces) == [] + Inners(pieces[1..]) == Inners(pieces[1..]);
    }
  }

  // ----- line endings and trailing space -----

  predicate HasCrLf(s: string) {
    exists i :: 0 <= i < |s| - 1 && s[i] == '\r' && s[i + 1] == '\n'
  }

  lemma {:induction false} NormalizeShrinks(s: string)
    ensures |Normalize(s)| <= |s|
    ensures HasCrLf(s) ==> |Normalize(s)| < |s|
    ensures !HasCrLf(s) ==> Normalize(s) == s
  {
    if s != "" {
      if 2 <= |s| && s[0] == '\r' && s[1] == '\n' {
        NormalizeShrinks(s[2..]);
        assert HasCrLf(s);
      } else {
        NormalizeShrinks(s[1..]);
        if HasCrLf(s) {
          var i :| 0 <= i < |s| - 1 && s[i] == '\r' && s[i + 1] == '\n';
          assert s[1..][i - 1] == '\r' && s[1..][i] == '\n';
        }
        if HasCrLf(s[1..]) {
          var i :| 0 <= i < |s[1..]| - 1 && s[1..][i] == '\r' && s[1..][i + 1] == '\n';
          assert s[i + 1] == '\r' && s[i + 2] == '\n';
        }
      }
    }
  }

  /** How many characters make the first one of the normalized text. */
  function LineEnd(s: string): (r: nat)
    requires s != ""
    ensures 1 <= r <= |s|
  {
    if 2 <= |s| && s[0] == '\r' && s[1] == '\n' then 2 else 1
  }

  lemma NormalizeStep(s: string)
    requires s != ""
    ensures Normalize(s) == [s[LineEnd(s) - 1]] + Normalize(s[LineEnd(s)..])
  {
  }

  lemma {:induction false} NormalizeAppend(a: string, b: string)
    requires a != "" && a[|a| - 1] == '\r' ==> b == "" || b[0] != '\n'
    ensures Normalize(a + b) == Normalize(a) + Normalize(b)
  {
    if a == "" {
      assert a + b == b;
    } else {
      LineEndAppend(a, b);
      NormalizeAppend(a[LineEnd(a)..], b);
      NormalizeStep(a);
      NormalizeStep(a + b);
      AppendApart([a[LineEnd(a) - 1]], Normalize(a[LineEnd(a)..]), Normalize(b));
    }
  }

  lemma LineEndAppend(a: string, b: string)
    requires a != "" && (a[|a| - 1] == '\r' ==> b == "" || b[0] != '\n')
    ensures LineEnd(a + b) == LineEnd(a) && (a + b)[LineEnd(a)..] == a[LineEnd(a)..] + b
  {
  }

  lemma AppendApart(a: string, b: string, c: string)
    ensures a + (b + c) == a + b + c
  {
  }

  /** Every carriage return and line feed becomes a line feed, whatever is around them. */
  lemma NormalizeLineEnd(a: string, b: string)
    ensures Normalize(a + "\r\n" + b) == Normalize(a) + "\n" + Normalize(b)
  {
    assert a + "\r\n" + b == a + ("\r\n" + b);
    NormalizeAppend(a, "\r\n" + b);
    assert ("\r\n" + b)[2..] == b;
  }

  /** Text without line feeds that is in front after normalizing was in front before. */
  lemma {:induction false} NormalizeKeepsFront(front: string, s: string)
    requires front <= Normalize(s) && forall i | 0 <= i < |front| :: front[i] != '\n'
    ensures front <= s
  {
    if front != "" {
      assert front[0] == Normalize(s)[0] == s[0];
      assert front[1..] <= Normalize(s[1..]) by {
        assert Normalize(s)[1..] == Normalize(s[1..]);
        assert front[1..] == Normalize(s)[..|front|][1..] == Normalize(s)[1..][..|front| - 1];
      }
      NormalizeKeepsFront(front[1..], s[1..]);
      assert front == [s[0]] + front[1..] && s == [s[0]] + s[1..];
    }
  }

  lemma {:induction false} NormalizeMakesNoMarker(s: string, m: string)
    requires IsMarker(m) && !Contains(s, m)
    ensures !Contains(Normalize(s), m)
  {
    var n := Normalize(s);
    assert !Occurs(s, m, 0) && !(m <= s);
    assert m <= n ==> m <= s by {
      if m <= n {
        NormalizeKeepsFront(m, s);
      }
    }
    assert !Occurs(n, m, 0);
    if s != "" {
      var skip := if 2 <= |s| && s[0] == '\r' && s[1] == '\n' then 2 else 1;
      forall k: nat | k <= |s| - skip ensures !Occurs(s[skip..], m, k) {
        OccursBehind(s, m, skip, k);
      }
      NormalizeMakesNoMarker(s[skip..], m);
      assert n[1..] == Normalize(s[skip..]);
      forall k: nat | 0 < k <= |n| ensures !Occurs(n, m, k) {
        OccursBehind(n, m, 1, k - 1);
      }
    }
  }

  // ----- merging -----

  function Feeds(n: nat): string {
    seq(n, i => '\n')
  }

  /** What a merge writes after the user's part. */
  function Tail(m: Markers, feeds: nat, content: string): string {
    Feeds(feeds) + BlockThen(m, "\n" + content + "\n", true, "")
  }

  lemma FeedsHaveNoMarker(a: string, feeds: nat, m: string)
    requires IsMarker(m) && !Contains(a, m)
    ensures !Contains(a + Feeds(feeds), m)
  {
    forall k: nat | k <= feeds ensures !Occurs(Feeds(feeds), m, k) {
      DiffersAt(Feeds(feeds), m, k, 0);
    }
    NotAcross(a, Feeds(feeds), m);
  }

  lemma InnerHasNoEnd(m: Markers, content: string)
    requires AreMarkers(m) && !Contains(content, m.end)
    ensures !Contains("\n" + content + "\n", m.end)
  {
    assert Feeds(1) == "\n";
    FeedsHaveNoMarker(content, 1, m.end);
    var s := content + "\n";
    assert "\n" + content + "\n" == "\n" + s;
    forall k: nat | k <= |s| + 1 ensures !Occurs("\n" + s, m.end, k) {
      if k == 0 {
        DiffersAt("\n" + s, m.end, 0, 0);
      } else {
        OccursAfter("\n", s, m.end, k - 1);
        assert !Occurs(s, m.end, k - 1);
      }
    }
  }

  /** Without a begin marker of its own, the user's part comes back and the one block is the managed one. */
  lemma RemoveOwn(m: Markers, user: string, feeds: nat, content: string)
    requires AreMarkers(m) && !Contains(content, m.end) && !Contains(user, m.begin)
    ensures Remove(m, user + Tail(m, feeds, content)) == user + Feeds(feeds)
    ensures Blocks(m, user + Tail(m, feeds, content)) == ["\n" + content + "\n"]
  {
    var inner := "\n" + content + "\n";
    var text := user + Feeds(feeds);
    var block := BlockThen(m, inner, true, "");
    assert user + Tail(m, feeds, content) == text + block;
    assert !Contains(inner, m.end) by {
      InnerHasNoEnd(m, content);
    }
    assert !Contains(text, m.begin) by {
      FeedsHaveNoMarker(user, feeds, m.begin);
    }
    RemoveOnly(m, text, inner);
  }

  lemma RemoveOnly(m: Markers, text: string, inner: string)
    requires AreMarkers(m) && !Contains(text, m.begin) && !Contains(inner, m.end)
    ensures Remove(m, text + BlockThen(m, inner, true, "")) == text
    ensures Blocks(m, text + BlockThen(m, inner, true, "")) == [inner]
  {
    RemoveFirst(m, text, inner, true, "");
    BlocksFirst(m, text, inner, true, "");
    assert !Contains("", m.begin);
    RemoveNothing(m, "");
  }

  /** The tail starts at a line feed or at the marker. */
  lemma TailSeam(m: Markers, feeds: nat, content: string)
    requires AreMarkers(m)
    ensures SeamBefore(Tail(m, feeds, content)) && Tail(m, feeds, content) != ""
    ensures feeds > 0 ==> Tail(m, feeds, content)[0] == '\n' && Tail(m, feeds, content)[1..] == Tail(m, feeds - 1, content)
  {
    if feeds > 0 {
      assert Feeds(feeds)[1..] == Feeds(feeds - 1);
      assert Tail(m, feeds, content)[1..] == Feeds(feeds)[1..] + BlockThen(m, "\n" + content + "\n", true, "");
    } else {
      assert Tail(m, feeds, content) == BlockThen(m, "\n" + content + "\n", true, "");
    }
  }

  lemma SplitAfter(s: string, w: string, k: nat)
    requires k <= |s|
    ensures (s + w)[k..] == s[k..] + w && (s + w)[..k] == s[..k]
  {
  }

  lemma FirstBlockIs(m: Markers, s: string, i: nat, rest: string, j: nat)
    requires Find(s, m.begin) == Some(i) && i + |m.begin| <= |s|
    requires rest == s[i + |m.begin|..] && Find(rest, m.end) == Some(j)
    ensures FirstBlock(m, s) == Some((i, i + |m.begin| + j, AfterFeed(s, i + |m.begin| + j + |m.end|)))
  {
  }

  /** Text behind a marker does not change where the marker is first found. */
  lemma FindStays(a: string, b: string, m: string, i: nat)
    requires IsMarker(m) && SeamBefore(b) && Find(a, m) == Some(i)
    ensures Find(a + b, m) == Some(i)
  {
    FindFirst(a, m);
    FindInFront(a, b, m);
  }

  /** A complete block within the user's part is the first block of the whole. */
  lemma OwnBlockFirst(m: Markers, user: string, w: string, i: nat, j: nat)
    requires AreMarkers(m) && SeamBefore(w)
    requires Find(user, m.begin) == Some(i) && Find(user[i + |m.begin|..], m.end) == Some(j)
    ensures FirstBlock(m, user + w) == Some((i, i + |m.begin| + j, AfterFeed(user + w, i + |m.begin| + j + |m.end|)))
  {
    var rest := user[i + |m.begin|..];
    FindStays(user, w, m.begin, i);
    FindStays(rest, w, m.end, j);
    SplitAfter(user, w, i + |m.begin|);
    FirstBlockIs(m, user + w, i, rest + w, j);
  }

  lemma AfterOwnBlock(user: string, w: string, k: nat)
    requires k <= |user| && w != ""
    ensures (user + w)[AfterFeed(user + w, k)..] ==
              if k < |user| then user[AfterFeed(user, k)..] + w else if w[0] == '\n' then w[1..] else w
  {
    var s := user + w;
    if k < |user| {
      assert s[k] == user[k];
      SplitAfter(user, w, AfterFeed(user, k));
    } else {
      assert s[k] == w[0];
      SplitAfter(user, w, k);
      assert s[k + 1..] == s[k..][1..];
    }
  }

  /** A begin marker without an end marker swallows everything up to the end of the managed block. */
  lemma OpenBlockFirst(m: Markers, user: string, feeds: nat, content: string, i: nat)
    requires AreMarkers(m) && !Contains(content, m.end)
    requires Find(user, m.begin) == Some(i) && Find(user[i + |m.begin|..], m.end) == None
    ensures
      var s := user + Tail(m, feeds, content);
      exists j :: FirstBlock(m, s) == Some((i, j, |s|))
  {
    var w := Tail(m, feeds, content);
    var s := user + w;
    var rest := user[i + |m.begin|..];
    assert Find(s, m.begin) == Some(i) by {
      TailSeam(m, feeds, content);
      FindStays(user, w, m.begin, i);
    }
    assert s[i + |m.begin|..] == rest + w by {
      SplitAfter(user, w, i + |m.begin|);
    }
    var n := OpenEnd(m, rest, feeds, content);
    LastBlockIs(m, s, i, rest + w, n);
  }

  lemma LastBlockIs(m: Markers, s: string, i: nat, rest: string, n: nat)
    requires Find(s, m.begin) == Some(i) && i + |m.begin| <= |s| && rest == s[i + |m.begin|..]
    requires Find(rest, m.end) == Some(n) && |rest| == n + |m.end| + 1 && rest[n + |m.end|] == '\n'
    ensures FirstBlock(m, s) == Some((i, i + |m.begin| + n, |s|))
  {
    FirstBlockIs(m, s, i, rest, n);
    assert s[i + |m.begin| + n + |m.end|] == rest[n + |m.end|];
  }

  /** Where the end marker of the managed block is found from an open begin marker on. */
  lemma OpenEnd(m: Markers, rest: string, feeds: nat, content: string) returns (n: nat)
    requires AreMarkers(m) && !Contains(content, m.end) && Find(rest, m.end) == None
    ensures
      var s := rest + Tail(m, feeds, content);
      Find(s, m.end) == Some(n) && |s| == n + |m.end| + 1 && s[n + |m.end|] == '\n'
  {
    var before := rest + Feeds(feeds) + (m.begin + ("\n" + content + "\n"));
    n := |before|;
    TailEnds(m, rest, feeds, content);
    NoEndBeforeBlock(m, rest, feeds, content);
    MarkerAt(before, m.end + "\n", m.end);
  }

  lemma TailEnds(m: Markers, rest: string, feeds: nat, content: string)
    ensures
      var before := rest + Feeds(feeds) + (m.begin + ("\n" + content + "\n"));
      rest + Tail(m, feeds, content) == before + (m.end + "\n")
  {
    assert m.end + (Feed(true) + "") == m.end + "\n";
  }

  lemma NoEndBeforeBlock(m: Markers, rest: string, feeds: nat, content: string)
    requires AreMarkers(m) && !Contains(content, m.end) && Find(rest, m.end) == None
    ensures !Contains(rest + Feeds(feeds) + (m.begin + ("\n" + content + "\n")), m.end)
  {
    FindFirst(rest, m.end);
    FeedsHaveNoMarker(rest, feeds, m.end);
    assert !Contains(m.begin, m.end) by {
      forall k: nat | k <= |m.begin| ensures !Occurs(m.begin, m.end, k) {
        if 0 < k {
          DiffersAt(m.begin, m.end, k, 0);
        } else {
          OccursAtStart(m.begin, m.end);
        }
      }
    }
    InnerHasNoEnd(m, content);
    NotAcross(m.begin, "\n" + content + "\n", m.end);
    NotAcross(rest + Feeds(feeds), m.begin + ("\n" + content + "\n"), m.end);
  }

  lemma LosesRest(m: Markers, user: string, feeds: nat, content: string, i: nat)
    requires AreMarkers(m) && !Contains(content, m.end) && Find(user, m.begin) == Some(i)
    requires Find(user[i + |m.begin|..], m.end) == None
    ensures Remove(m, user + Tail(m, feeds, content)) == user[..i] && i < |user|
  {
    var s := user + Tail(m, feeds, content);
    OpenBlockFirst(m, user, feeds, content, i);
    var j :| FirstBlock(m, s) == Some((i, j, |s|));
    RemoveAt(m, s, i, j, |s|);
    SplitAfter(user, Tail(m, feeds, content), i);
    assert !Contains("", m.begin);
    RemoveNothing(m, "");
    assert s[|s|..] == "";
  }

  /** A begin marker left in the user's part costs the user text: less comes back than was there. */
  lemma {:induction false} RemoveLosesText(m: Markers, user: string, feeds: nat, content: string)
    requires AreMarkers(m) && !Contains(content, m.end) && (feeds > 0 || user == "")
    ensures |TrimEnd(Remove(m, user + Tail(m, feeds, content)))| <= |user|
    ensures Contains(user, m.begin) ==> |TrimEnd(Remove(m, user + Tail(m, feeds, content)))| < |user|
    decreases |user|, 1
  {
    FindFirst(user, m.begin);
    var i := Find(user, m.begin);
    if i == None {
      RemoveOwn(m, user, feeds, content);
      TrimEndFeeds(user, feeds);
    } else if Find(user[i.value + |m.begin|..], m.end) == None {
      LosesRest(m, user, feeds, content, i.value);
      TrimEndIs(user[..i.value]);
    } else {
      LosesOwnBlock(m, user, feeds, content, i.value, Find(user[i.value + |m.begin|..], m.end).value);
    }
  }

  lemma AfterOwnBlockIs(m: Markers, user: string, feeds: nat, content: string, k: nat, kept: string, left: nat)
    requires AreMarkers(m) && feeds > 0 && k <= |user|
    requires if k < |user| then kept == user[AfterFeed(user, k)..] && left == feeds else kept == "" && left == feeds - 1
    ensures
      var s := user + Tail(m, feeds, content);
      s[AfterFeed(s, k)..] == kept + Tail(m, left, content)
  {
    TailSeam(m, feeds, content);
    AfterOwnBlock(user, Tail(m, feeds, content), k);
    assert "" + Tail(m, left, content) == Tail(m, left, content);
  }

  lemma RemoveOwnBlock(m: Markers, user: string, w: string, i: nat, j: nat, k: nat, rest: string)
    requires AreMarkers(m) && SeamBefore(w)
    requires Find(user, m.begin) == Some(i) && Find(user[i + |m.begin|..], m.end) == Some(j)
    requires k == AfterFeed(user + w, i + |m.begin| + j + |m.end|) && (user + w)[k..] == rest
    ensures Remove(m, user + w) == user[..i] + Remove(m, rest)
  {
    OwnBlockFirst(m, user, w, i, j);
    SplitAfter(user, w, i);
    RemoveAs(m, user + w, i, i + |m.begin| + j, k, user[..i], rest);
  }

  lemma LosesOwnBlock(m: Markers, user: string, feeds: nat, content: string, i: nat, j: nat)
    requires AreMarkers(m) && !Contains(content, m.end) && feeds > 0
    requires Find(user, m.begin) == Some(i) && Find(user[i + |m.begin|..], m.end) == Some(j)
    ensures |TrimEnd(Remove(m, user + Tail(m, feeds, content)))| < |user|
    decreases |user|, 0
  {
    var k := i + |m.begin| + j + |m.end|;
    var kept := if k < |user| then user[AfterFeed(user, k)..] else "";
    var left := if k < |user| then feeds else feeds - 1;
    var w := Tail(m, feeds, content);
    TailSeam(m, feeds, content);
    AfterOwnBlockIs(m, user, feeds, content, k, kept, left);
    RemoveOwnBlock(m, user, w, i, j, AfterFeed(user + w, k), kept + Tail(m, left, content));
    RemoveLosesText(m, kept, left, content);
    TrimEndAppend(user[..i], Remove(m, kept + Tail(m, left, content)));
    TrimEndIs(user[..i]);
  }

  lemma {:induction false} TrimEndFeeds(s: string, feeds: nat)
    ensures TrimEnd(s + Feeds(feeds)) == TrimEnd(s) && |TrimEnd(s)| <= |s|
  {
    TrimEndIs(s);
    if feeds == 0 {
      assert s + Feeds(feeds) == s;
    } else {
      assert (s + Feeds(feeds))[..|s + Feeds(feeds)| - 1] == s + Feeds(feeds - 1);
      TrimEndFeeds(s, feeds - 1);
    }
  }

  // ----- the promises -----

  lemma WrapIsBlock(m: Markers, content: string)
    ensures Wrap(m, content) == Tail(m, 0, Trim(content))
  {
    var inner := "\n" + Trim(content) + "\n";
    assert Tail(m, 0, Trim(content)) == BlockThen(m, inner, true, "");
    assert m.end + (Feed(true) + "") == m.end + "\n";
    assert Wrap(m, content) == m.begin + (inner + (m.end + "\n"));
  }

  function FeedsAfter(user: string): nat {
    if user == "" then 0 else 2
  }

  lemma MergeIs(m: Markers, existing: string, content: string)
    requires AreMarkers(m)
    ensures Merge(m, existing, content) == Clean(m, existing) + Tail(m, FeedsAfter(Clean(m, existing)), Trim(content))
  {
    WrapIsBlock(m, content);
    var user := Clean(m, existing);
    assert Feeds(2) == "\n\n";
    assert Tail(m, 2, Trim(content)) == "\n\n" + Tail(m, 0, Trim(content));
    assert "" + Tail(m, 0, Trim(content)) == Tail(m, 0, Trim(content));
  }

  lemma NormalizePlain(s: string)
    requires !('\r' in s)
    ensures Normalize(s) == s
  {
    NormalizeShrinks(s);
  }

  lemma MarkersPlain(m: string)
    requires IsMarker(m)
    ensures Normalize(m) == m
  {
    assert forall i | 0 <= i < |m| :: m[i] != '\r';
    NormalizePlain(m);
  }

  /** Normalizing a merged crontab normalizes its two parts. */
  lemma NormalizeMerged(m: Markers, user: string, feeds: nat, content: string)
    requires AreMarkers(m)
    requires user == "" || !IsSpace(user[|user| - 1])
    requires content == "" || !IsSpace(content[|content| - 1])
    ensures Normalize(user + Tail(m, feeds, content)) == Normalize(user) + Tail(m, feeds, Normalize(content))
  {
    var rest := "\n" + (m.end + "\n");
    NormalizeAppend(user, Tail(m, feeds, content));
    NormalizePlain(Feeds(feeds));
    MarkersPlain(m.begin);
    MarkersPlain(m.end);
    TailParts(m, feeds, content);
    TailParts(m, feeds, Normalize(content));
    NormalizePlain("\n");
    NormalizeAppend(Feeds(feeds), m.begin + ("\n" + (content + rest)));
    NormalizeAppend(m.begin, "\n" + (content + rest));
    NormalizeAppend("\n", content + rest);
    NormalizeAppend(content, rest);
    NormalizeAppend("\n", m.end + "\n");
    NormalizeAppend(m.end, "\n");
  }

  lemma TailParts(m: Markers, feeds: nat, content: string)
    ensures Tail(m, feeds, content) == Feeds(feeds) + (m.begin + ("\n" + (content + ("\n" + (m.end + "\n")))))
  {
    assert m.end + (Feed(true) + "") == m.end + "\n";
    assert ("\n" + content + "\n") + (m.end + "\n") == "\n" + (content + ("\n" + (m.end + "\n")));
  }

  /** The user's part comes back from a merged crontab exactly when it has no begin marker and no carriage return before a line feed. */
  lemma CleanMerged(m: Markers, existing: string, content: string)
    requires AreMarkers(m) && !Contains(Trim(content), m.end)
    ensures
      var user := Clean(m, existing);
      var again := Clean(m, Merge(m, existing, content));
      && (again == user <==> !Contains(user, m.begin) && !HasCrLf(user))
      && (again != user ==> |again| < |user|)
  {
    var user := Clean(m, existing);
    var feeds := FeedsAfter(user);
    var normal := Normalize(Trim(content));
    TrimEndIs(Remove(m, Normalize(existing)));
    TrimIs(content);
    MergeIs(m, existing, content);
    NormalizeMerged(m, user, feeds, Trim(content));
    NormalizeMakesNoMarker(Trim(content), m.end);
    NormalizeShrinks(user);
    RemoveLosesText(m, Normalize(user), feeds, normal);
    if !Contains(user, m.begin) && !HasCrLf(user) {
      RemoveOwn(m, user, feeds, normal);
      TrimEndFeeds(user, feeds);
    }
  }

  /**
   Merging twice is merging the second time only: for exactly the crontabs whose user part has
   neither a begin marker nor a carriage return before a line feed left in it. An unclosed begin
   marker makes the next merge delete user lines.
   */
  lemma MergeTwice(m: Markers, existing: string, first: string, second: string)
    requires AreMarkers(m) && !Contains(Trim(first), m.end)
    ensures Merge(m, Merge(m, existing, first), second) == Merge(m, existing, second)
       <==> !Contains(Clean(m, existing), m.begin) && !HasCrLf(Clean(m, existing))
  {
    var user := Clean(m, existing);
    var again := Clean(m, Merge(m, existing, first));
    CleanMerged(m, existing, first);
    MergeIs(m, existing, second);
    MergeIs(m, Merge(m, existing, first), second);
    if again != user {
      assert |Merge(m, Merge(m, existing, first), second)| < |Merge(m, existing, second)| by {
        assert FeedsAfter(again) <= FeedsAfter(user);
        TailLength(m, FeedsAfter(again), Trim(second));
        TailLength(m, FeedsAfter(user), Trim(second));
      }
    }
  }

  lemma TailLength(m: Markers, feeds: nat, content: string)
    ensures |Tail(m, feeds, content)| == feeds + |Tail(m, 0, content)|
  {
  }

  // ----- crontabs whose begin markers stand at line starts -----

  ghost predicate AtLineStarts(m: Markers, s: string) {
    forall k | 0 < k <= |s| && Occurs(s, m.begin, k) :: s[k - 1] == '\n'
  }

  /** An end marker follows the begin marker that stands there, if one does, */
  ghost predicate ClosedAt(m: Markers, s: string, k: nat) {
    Occurs(s, m.begin, k) ==> Contains(s[k + |m.begin|..], m.end)
  }

  /** and so everywhere. */
  ghost predicate AllClosed(m: Markers, s: string) {
    forall k | 0 <= k <= |s| :: ClosedAt(m, s, k)
  }

  /** Neither marker is the beginning of the other, and the begin marker does not end in space. */
  predicate ApartMarkers(m: Markers) {
    AreMarkers(m) && !(m.begin <= m.end) && !IsSpace(m.begin[|m.begin| - 1])
  }

  lemma FirstBlockFound(m: Markers, s: string, i: nat, j: nat, k: nat)
    requires FirstBlock(m, s) == Some((i, j, k))
    ensures Occurs(s, m.begin, i) && forall p | 0 <= p < i :: !Occurs(s, m.begin, p)
    ensures i + |m.begin| <= j && Occurs(s, m.end, j) && k == AfterFeed(s, j + |m.end|)
  {
    var inner := i + |m.begin|;
    FindFirst(s, m.begin);
    FindFirst(s[inner..], m.end);
    OccursBehind(s, m.end, inner, j - inner);
  }

  lemma NoBeginInEnd(m: Markers, s: string, j: nat, p: nat)
    requires ApartMarkers(m) && Occurs(s, m.end, j)
    requires p < AfterFeed(s, j + |m.end|) && j < p + |m.begin|
    ensures !Occurs(s, m.begin, p)
  {
    if p < j {
      assert s[j + 0] == m.end[0];
      DiffersAt(s, m.begin, p, j - p);
    } else if p == j {
      var i :| 0 <= i < |m.begin| && i < |m.end| && m.begin[i] != m.end[i];
      assert s[j + i] == m.end[i];
      DiffersAt(s, m.begin, p, i);
    } else {
      assert p < j + |m.end| ==> s[j + (p - j)] == m.end[p - j];
      DiffersAt(s, m.begin, p, 0);
    }
  }

  lemma ClosedInBlock(m: Markers, s: string, i: nat, j: nat, k: nat, p: nat)
    requires ApartMarkers(m) && FirstBlock(m, s) == Some((i, j, k)) && p < k
    ensures ClosedAt(m, s, p)
  {
    FirstBlockFound(m, s, i, j, k);
    if j < p + |m.begin| {
      NoBeginInEnd(m, s, j, p);
    } else {
      ContainsBehind(s, m.end, p + |m.begin|, j);
    }
  }

  lemma ContainsBehind(s: string, pattern: string, from: nat, k: nat)
    requires from <= k <= |s| && Occurs(s, pattern, k)
    ensures Contains(s[from..], pattern)
  {
    OccursBehind(s, pattern, from, k - from);
  }

  lemma ClosedFrom(m: Markers, s: string, k: nat, p: nat)
    requires k + p <= |s|
    ensures ClosedAt(m, s[k..], p) <==> ClosedAt(m, s, k + p)
  {
    OccursBehind(s, m.begin, k, p);
    if k + p + |m.begin| <= |s| {
      assert s[k..][p + |m.begin|..] == s[k + p + |m.begin|..];
    }
  }

  lemma ClosedBehind(m: Markers, s: string, i: nat, j: nat, k: nat)
    requires ApartMarkers(m) && FirstBlock(m, s) == Some((i, j, k))
    ensures AllClosed(m, s) <==> AllClosed(m, s[k..])
  {
    forall p: nat | p < k ensures ClosedAt(m, s, p) {
      ClosedInBlock(m, s, i, j, k, p);
    }
    forall p: nat | p <= |s| - k ensures ClosedAt(m, s[k..], p) <==> ClosedAt(m, s, k + p) {
      ClosedFrom(m, s, k, p);
    }
    if AllClosed(m, s[k..]) {
      forall p | 0 <= p <= |s| ensures ClosedAt(m, s, p) {
        assert p >= k ==> ClosedAt(m, s[k..], p - k);
      }
    }
  }

  lemma LinesApart(a: string, b: string, m: string)
    requires IsMarker(m) && (a == "" || a[|a| - 1] == '\n') && !Contains(a, m)
    ensures Contains(a + b, m) <==> Contains(b, m)
  {
    forall k: nat | k < |a| ensures !Occurs(a + b, m, k) {
      if k + |m| <= |a| {
        assert (a + b)[..|a|] == a;
        OccursInFront(a + b, m, |a|, k);
      } else {
        DiffersAt(a + b, m, k, |a| - 1 - k);
      }
    }
    forall k: nat | k <= |b| ensures Occurs(a + b, m, |a| + k) == Occurs(b, m, k) {
      OccursAfter(a, b, m, k);
    }
    if Contains(b, m) {
      var k :| 0 <= k <= |b| && Occurs(b, m, k);
      assert Occurs(a + b, m, |a| + k);
    }
    if Contains(a + b, m) {
      var k :| 0 <= k <= |a + b| && Occurs(a + b, m, k);
      assert Occurs(b, m, k - |a|);
    }
  }

  /** Removing leaves a begin marker exactly if one is not closed. */
  lemma {:induction false} RemoveLeavesUnclosed(m: Markers, s: string)
    requires ApartMarkers(m) && AtLineStarts(m, s)
    ensures Contains(Remove(m, s), m.begin) <==> !AllClosed(m, s)
    decreases |s|
  {
    var block := FirstBlock(m, s);
    if block == None {
      UnclosedFirst(m, s);
    } else {
      var (i, j, k) := block.value;
      LinesAround(m, s, i, j, k);
      RemoveLeavesUnclosed(m, s[k..]);
      RemoveLeavesBehind(m, s, i, j, k);
    }
  }

  lemma RemoveLeavesBehind(m: Markers, s: string, i: nat, j: nat, k: nat)
    requires ApartMarkers(m) && AtLineStarts(m, s) && FirstBlock(m, s) == Some((i, j, k))
    requires Contains(Remove(m, s[k..]), m.begin) <==> !AllClosed(m, s[k..])
    ensures Contains(Remove(m, s), m.begin) <==> !AllClosed(m, s)
  {
    ClosedBehind(m, s, i, j, k);
    LinesAround(m, s, i, j, k);
    LinesApart(s[..i], Remove(m, s[k..]), m.begin);
    RemoveAt(m, s, i, j, k);
  }

  lemma LinesAround(m: Markers, s: string, i: nat, j: nat, k: nat)
    requires AreMarkers(m) && AtLineStarts(m, s) && FirstBlock(m, s) == Some((i, j, k))
    ensures AtLineStarts(m, s[k..])
    ensures !Contains(s[..i], m.begin) && (i > 0 ==> s[..i][i - 1] == '\n')
  {
    FirstBlockFound(m, s, i, j, k);
    forall p | 0 < p <= |s[k..]| && Occurs(s[k..], m.begin, p) ensures s[k..][p - 1] == '\n' {
      OccursBehind(s, m.begin, k, p);
    }
    forall p: nat | p <= i ensures !Occurs(s[..i], m.begin, p) {
      if p + |m.begin| <= i {
        OccursInFront(s, m.begin, i, p);
      }
    }
  }

  lemma UnclosedFirst(m: Markers, s: string)
    requires AreMarkers(m) && FirstBlock(m, s) == None
    ensures Contains(s, m.begin) <==> !AllClosed(m, s)
  {
    FindFirst(s, m.begin);
    var begin := Find(s, m.begin);
    if begin.Some? {
      FindFirst(s[begin.value + |m.begin|..], m.end);
      assert !ClosedAt(m, s, begin.value);
    }
  }

  lemma {:induction false} RemoveAddsNothing(m: Markers, s: string)
    requires AreMarkers(m)
    ensures forall c | c in Remove(m, s) :: c in s
    decreases |s|
  {
    var block := FirstBlock(m, s);
    if block.Some? {
      RemoveAddsNothing(m, s[block.value.2..]);
    }
  }

  lemma {:induction false} TrimEndKeepsMarker(s: string, m: string)
    requires IsMarker(m) && !IsSpace(m[|m| - 1])
    ensures Contains(TrimEnd(s), m) <==> Contains(s, m)
  {
    if s != "" && IsSpace(s[|s| - 1]) {
      var front := s[..|s| - 1];
      TrimEndKeepsMarker(front, m);
      forall k: nat | k <= |s| ensures Occurs(front, m, k) == Occurs(s, m, k) {
        if k + |m| <= |front| {
          OccursInFront(s, m, |front|, k);
        } else {
          DiffersAt(s, m, k, |m| - 1);
        }
      }
      if Contains(s, m) {
        var k :| 0 <= k <= |s| && Occurs(s, m, k);
        assert Occurs(front, m, k);
      }
      if Contains(front, m) {
        var k :| 0 <= k <= |front| && Occurs(front, m, k);
        assert Occurs(s, m, k);
      }
    }
  }

  /**
   In a crontab with line feeds only and its begin markers at line starts, merging twice is merging
   the second time only if and only if an end marker follows every begin marker.
   */
  lemma MergeTwiceIfClosed(m: Markers, existing: string, first: string, second: string)
    requires ApartMarkers(m) && !Contains(Trim(first), m.end)
    requires '\r' !in existing && AtLineStarts(m, existing)
    ensures Merge(m, Merge(m, existing, first), second) == Merge(m, existing, second) <==> AllClosed(m, existing)
  {
    var kept := Remove(m, existing);
    NormalizePlain(existing);
    RemoveLeavesUnclosed(m, existing);
    RemoveAddsNothing(m, existing);
    TrimEndKeepsMarker(kept, m.begin);
    TrimEndIs(kept);
    MergeTwice(m, existing, first, second);
  }

  // ----- one block -----

  /** The merged crontab has one block, the managed one, with all of the user's part in front of it. */
  lemma MergedHasOneBlock(m: Markers, existing: string, content: string)
    requires AreMarkers(m) && !Contains(Trim(content), m.end)
    ensures
      var user := Clean(m, existing);
      var merged := Merge(m, existing, content);
      && user <= merged
      && (!Contains(user, m.begin) ==>
            Blocks(m, merged) == ["\n" + Trim(content) + "\n"] && Remove(m, merged) == user + Feeds(FeedsAfter(user)))
      && (Contains(user, m.begin) ==> |TrimEnd(Remove(m, merged))| < |user|)
  {
    var user := Clean(m, existing);
    MergeIs(m, existing, content);
    if Contains(user, m.begin) {
      RemoveLosesText(m, user, FeedsAfter(user), Trim(content));
    } else {
      RemoveOwn(m, user, FeedsAfter(user), Trim(content));
    }
  }

  /** From a well-formed crontab the merge keeps all of the user's text, up to space at its end. */
  lemma UserTextSurvives(m: Markers, existing: string, pieces: seq<Piece>, content: string)
    requires AreMarkers(m) && WellFormed(m, pieces) && Normalize(existing) == Render(m, pieces)
    ensures Clean(m, existing) == TrimEnd(Texts(pieces)) && TrimEnd(Texts(pieces)) <= Merge(m, existing, content)
  {
    RemoveKeepsText(m, pieces);
    MergeIs(m, existing, content);
  }

  lemma SelftuneMarkers()
    ensures AreMarkers(SELFTUNE) && ApartMarkers(SELFTUNE)
  {
    var m := SELFTUNE;
    assert m.begin[2] == 'B' && m.end[2] == 'E';
  }

  /** A begin marker without its end, and a line of the user's behind it: the second merge deletes that line. */
  lemma UnclosedBeginLosesLine(m: Markers, line: string, first: string, second: string)
    requires AreMarkers(m) && line != "" && !IsSpace(line[|line| - 1]) && '\r' !in line
    requires !Contains(line, m.end) && !Contains(Trim(first), m.end)
    ensures
      var existing := m.begin + "\n" + line;
      && existing <= Merge(m, existing, first)
      && Merge(m, Merge(m, existing, first), second) == Wrap(m, second)
      && Merge(m, existing, second) == existing + "\n\n" + Wrap(m, second)
  {
    var existing := m.begin + "\n" + line;
    UnclosedIsUsers(m, line);
    MergeIs(m, existing, first);
    TrimIs(first);
    var normal := Normalize(Trim(first));
    NormalizeMerged(m, existing, 2, Trim(first));
    NormalizeMakesNoMarker(Trim(first), m.end);
    UnclosedFound(m, line);
    LosesRest(m, existing, 2, normal, 0);
    assert Clean(m, Merge(m, existing, first)) == "";
  }

  lemma UnclosedFound(m: Markers, line: string)
    requires AreMarkers(m) && !Contains(line, m.end)
    ensures
      var existing := m.begin + "\n" + line;
      Find(existing, m.begin) == Some(0) && Find(existing[0 + |m.begin|..], m.end) == None
  {
    var existing := m.begin + ("\n" + line);
    assert existing == m.begin + "\n" + line;
    OccursAtStart(existing, m.begin);
    FindIs(existing, m.begin, 0);
    assert existing[|m.begin|..] == "\n" + line;
    forall k: nat | k <= |line| + 1 ensures !Occurs("\n" + line, m.end, k) {
      if k == 0 {
        DiffersAt("\n" + line, m.end, 0, 0);
      } else {
        OccursAfter("\n", line, m.end, k - 1);
      }
    }
    NotFound("\n" + line, m.end);
  }

  /** All of it counts as the user's. */
  lemma UnclosedIsUsers(m: Markers, line: string)
    requires AreMarkers(m) && line != "" && !IsSpace(line[|line| - 1]) && '\r' !in line && !Contains(line, m.end)
    ensures
      var existing := m.begin + "\n" + line;
      Normalize(existing) == existing && Clean(m, existing) == existing
  {
    var existing := m.begin + "\n" + line;
    assert '\r' !in existing;
    NormalizePlain(existing);
    UnclosedFound(m, line);
    assert existing[|existing| - 1] == line[|line| - 1];
  }

  /** A line of a crontab behind the program's own begin marker, which has no end. */
  lemma ExampleUnclosedBegin(m: Markers, second: string)
    requires m == SELFTUNE
    ensures AreMarkers(m)
    ensures Merge(m, Merge(m, m.begin + "\n" + "0 0 * * * backup", ""), second) == Wrap(m, second)
  {
    var line := "0 0 * * * backup";
    SelftuneMarkers();
    forall k: nat | k <= |line| ensures !Occurs(line, m.end, k) {
      DiffersAt(line, m.end, k, 0);
    }
    assert !Contains(Trim(""), m.end);
    UnclosedBeginLosesLine(m, line, "", second);
  }
}
