/** White space at the ends of a text, and text split at a character, texts within texts, and the order of texts. */
module Text {
  import opened Wrappers
  import Lexicographic

  predicate IsSpace(c: char) {
    || '\t' <= c <= '\r' || c == ' ' || c == '\U{a0}' || c == '\U{1680}' || '\U{2000}' <= c <= '\U{200a}'
    || c == '\U{2028}' || c == '\U{2029}' || c == '\U{202f}' || c == '\U{205f}' || c == '\U{3000}' || c == '\U{feff}'
  }

  function TrimEnd(s: string): string {
    if s != "" && IsSpace(s[|s| - 1]) then TrimEnd(s[..|s| - 1]) else s
  }

  function TrimStart(s: string): string {
    if s != "" && IsSpace(s[0]) then TrimStart(s[1..]) else s
  }

  function Trim(s: string): string {
    TrimEnd(TrimStart(s))
  }

  lemma {:induction false} TrimEndIs(s: string)
    ensures TrimEnd(s) <= s && (TrimEnd(s) != "" ==> !IsSpace(TrimEnd(s)[|TrimEnd(s)| - 1]))
    ensures TrimEnd(TrimEnd(s)) == TrimEnd(s)
  {
    if s != "" && IsSpace(s[|s| - 1]) {
      TrimEndIs(s[..|s| - 1]);
    }
  }

  lemma {:induction false} TrimEndAppend(a: string, b: string)
    ensures TrimEnd(a + b) == if TrimEnd(b) == "" then TrimEnd(a) else a + TrimEnd(b)
  {
    if b == "" {
      assert a + b == a;
    } else if IsSpace(b[|b| - 1]) {
      assert (a + b)[..|a + b| - 1] == a + b[..|b| - 1];
      TrimEndAppend(a, b[..|b| - 1]);
    }
  }

  lemma TrimIs(content: string)
    ensures Trim(content) == "" || !IsSpace(Trim(content)[|Trim(content)| - 1])
  {
    TrimEndIs(TrimStart(content));
  }

  lemma TrimNothing(s: string)
    requires s != "" && !IsSpace(s[0]) && !IsSpace(s[|s| - 1])
    ensures Trim(s) == s
  {
  }

  /** The text in front of the first `c`, and the text behind it. */
  function Cut(s: string, c: char): (r: (string, Option<string>))
    ensures r.1.Some? ==> |r.1.value| < |s|
  {
    if s == "" then ("", None)
    else if s[0] == c then ("", Some(s[1..]))
    else var rest := Cut(s[1..], c); ([s[0]] + rest.0, rest.1)
  }

  function Split(s: string, c: char): (parts: seq<string>)
    ensures parts != []
    decreases |s|
  {
    var cut := Cut(s, c);
    if cut.1 == None then [cut.0] else [cut.0] + Split(cut.1.value, c)
  }

  /** The pattern is found at `k`. */
  predicate Occurs(s: string, pattern: string, k: nat) {
    k + |pattern| <= |s| && forall i | 0 <= i < |pattern| :: s[k + i] == pattern[i]
  }

  predicate Contains(s: string, pattern: string) {
    exists k :: 0 <= k <= |s| && Occurs(s, pattern, k)
  }

  lemma DiffersAt(s: string, pattern: string, k: nat, i: nat)
    requires i < |pattern| && (k + i < |s| ==> s[k + i] != pattern[i])
    ensures !Occurs(s, pattern, k)
  {
    if k + |pattern| <= |s| {
      assert s[k + i] != pattern[i];
    }
  }

  lemma OccursAtStart(s: string, pattern: string)
    ensures Occurs(s, pattern, 0) <==> pattern <= s
  {
    if Occurs(s, pattern, 0) {
      assert forall i | 0 <= i < |pattern| :: s[0 + i] == pattern[i];
    }
  }

  lemma OccursBehind(s: string, pattern: string, j: nat, k: nat)
    requires j <= |s|
    ensures Occurs(s[j..], pattern, k) == Occurs(s, pattern, j + k)
  {
    if j + k + |pattern| <= |s| {
      assert forall i | 0 <= i < |pattern| :: s[j..][k + i] == pattern[i] <==> s[j + k + i] == pattern[i];
    }
  }

  lemma OccursInFront(s: string, pattern: string, n: nat, k: nat)
    requires k + |pattern| <= n <= |s|
    ensures Occurs(s[..n], pattern, k) == Occurs(s, pattern, k)
  {
    assert forall i | 0 <= i < |pattern| :: s[..n][k + i] == pattern[i] <==> s[k + i] == pattern[i];
  }

  function Join(parts: seq<string>, c: char): string {
    if parts == [] then "" else if |parts| == 1 then parts[0] else parts[0] + [c] + Join(parts[1..], c)
  }

  lemma JoinThree(first: string, second: string, third: string, c: char)
    ensures Join([first, second, third], c) == first + [c] + (second + [c] + third)
  {
    var parts := [first, second, third];
    assert parts[1..] == [second, third] && [second, third][1..] == [third];
    assert Join([second, third], c) == second + [c] + third;
  }

  lemma {:induction false} CutParts(s: string, c: char)
    ensures c !in Cut(s, c).0
    ensures s == if Cut(s, c).1.Some? then Cut(s, c).0 + [c] + Cut(s, c).1.value else Cut(s, c).0
  {
    if s != "" && s[0] != c {
      CutParts(s[1..], c);
    }
  }

  lemma {:induction false} CutNothing(s: string, c: char)
    requires c !in s
    ensures Cut(s, c) == (s, None)
  {
    if s != "" {
      CutNothing(s[1..], c);
      assert [s[0]] + s[1..] == s;
    }
  }

  lemma {:induction false} CutAt(front: string, c: char, rest: string)
    requires c !in front
    ensures Cut(front + [c] + rest, c) == (front, Some(rest))
  {
    var s := front + [c] + rest;
    if front == "" {
      assert s[1..] == rest;
    } else {
      assert s[0] == front[0] && s[1..] == front[1..] + [c] + rest;
      CutAt(front[1..], c, rest);
      assert [front[0]] + front[1..] == front;
    }
  }

  /** Splitting undoes joining. */
  lemma {:induction false} SplitJoin(parts: seq<string>, c: char)
    requires parts != [] && forall i | 0 <= i < |parts| :: c !in parts[i]
    ensures Split(Join(parts, c), c) == parts
  {
    if |parts| == 1 {
      CutNothing(parts[0], c);
    } else {
      SplitJoin(parts[1..], c);
      CutAt(parts[0], c, Join(parts[1..], c));
    }
  }

  /** and joining undoes splitting. */
  lemma {:induction false} JoinSplit(s: string, c: char)
    ensures Join(Split(s, c), c) == s
    ensures forall i | 0 <= i < |Split(s, c)| :: c !in Split(s, c)[i]
    decreases |s|
  {
    var cut := Cut(s, c);
    CutParts(s, c);
    if cut.1.Some? {
      JoinSplit(cut.1.value, c);
      assert Split(s, c)[1..] == Split(cut.1.value, c);
    }
  }

  /** An optional text behind its mark. */
  function Tail(mark: char, text: Option<string>): string {
    if text.Some? then [mark] + text.value else ""
  }

  lemma CutTail(front: string, mark: char, text: Option<string>)
    requires mark !in front
    ensures Cut(front + Tail(mark, text), mark) == (front, text)
  {
    if text == None {
      assert front + Tail(mark, text) == front;
      CutNothing(front, mark);
    } else {
      assert front + Tail(mark, text) == front + [mark] + text.value;
      CutAt(front, mark, text.value);
    }
  }

  lemma TailIs(front: string, mark: char, text: Option<string>)
    ensures front + Tail(mark, text) == if text.Some? then front + [mark] + text.value else front
  {
  }

  lemma TailBack(s: string, mark: char)
    ensures s == Cut(s, mark).0 + Tail(mark, Cut(s, mark).1)
  {
    var cut := Cut(s, mark);
    CutParts(s, mark);
    TailIs(cut.0, mark, cut.1);
  }

  /** Character by character, by code. */
  ghost predicate TextPrecedes(a: string, b: string) {
    Lexicographic.Precedes(a, b, (x: char, y: char) => x < y)
  }

  lemma CharsOrdered()
    ensures Lexicographic.StrictTotal((x: char, y: char) => x < y)
  {
  }

  /** String comparison by character code. */
  method CompareTexts(left: string, right: string) returns (less: bool)
    ensures less <==> TextPrecedes(left, right)
  {
    ghost var order := (x: char, y: char) => x < y;
    CharsOrdered();
    var k := 0;
    while k < |left| && k < |right| && left[k] == right[k]
      invariant k <= |left| && k <= |right| && left[..k] == right[..k]
    {
      assert left[..k + 1] == left[..k] + [left[k]] && right[..k + 1] == right[..k] + [right[k]];
      k := k + 1;
    }
    less := k < |right| && (k == |left| || left[k] < right[k]);
    if less {
      assert Lexicographic.Differs(left, right, order, k);
    } else if k < |left| {
      assert Lexicographic.Differs(right, left, order, k);
      Lexicographic.Asymmetric(right, left, order);
    } else {
      assert left == right;
      if TextPrecedes(left, right) {
        Lexicographic.Asymmetric(left, right, order);
      }
    }
  }

  lemma TextsTransitive(a: string, b: string, c: string)
    requires TextPrecedes(a, b) && TextPrecedes(b, c)
    ensures TextPrecedes(a, c)
  {
    CharsOrdered();
    Lexicographic.Transitive(a, b, c, (x: char, y: char) => x < y);
  }

  lemma TextsTotal(a: string, b: string)
    ensures TextPrecedes(a, b) || TextPrecedes(b, a) || a == b
    ensures !(TextPrecedes(a, b) && TextPrecedes(b, a)) && !TextPrecedes(a, a)
  {
    var less := (x: char, y: char) => x < y;
    CharsOrdered();
    Lexicographic.Total(a, b, less);
    if TextPrecedes(a, b) {
      Lexicographic.Asymmetric(a, b, less);
    }
    if TextPrecedes(a, a) {
      Lexicographic.Asymmetric(a, a, less);
    }
  }

  lemma NotBefore(a: string, b: string, c: string)
    requires !TextPrecedes(b, a) && !TextPrecedes(c, b)
    ensures !TextPrecedes(c, a)
  {
    TextsTotal(a, b);
    TextsTotal(b, c);
    TextsTotal(a, c);
    if TextPrecedes(a, b) && TextPrecedes(b, c) {
      TextsTransitive(a, b, c);
    }
  }
}
