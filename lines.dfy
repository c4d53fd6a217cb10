/** `String.prototype.split('\n')`, `Array.prototype.join('\n')` and the
    `split('\n').slice(0, n).join('\n')` truncation the forms apply to addresses. */
module Lines {

  /** Position of the first line feed, or the length when there is none. */
  function IndexOfNewline(s: string): (i: nat)
    ensures i <= |s|
    ensures '\n' !in s[..i]
    ensures i < |s| ==> s[i] == '\n'
  {
    if s == [] then 0
    else if s[0] == '\n' then 0
    else
      var j := IndexOfNewline(s[1..]);
      assert s[..1 + j] == [s[0]] + s[1..][..j];
      1 + j
  }

  /** `s.split('\n')`: the pieces between line feeds; an empty string gives one empty line. */
  function Split(s: string): (lines: seq<string>)
    ensures |lines| >= 1
    ensures forall k :: 0 <= k < |lines| ==> '\n' !in lines[k]
    decreases |s|
  {
    var i := IndexOfNewline(s);
    if i == |s| then [s] else [s[..i]] + Split(s[i + 1..])
  }

  /** `lines.join('\n')`. */
  function Join(lines: seq<string>): (r: string)
    ensures |lines| > 0 ==> lines[0] <= r
    ensures |lines| >= 2 ==> |r| > |lines[0]| && r[|lines[0]|] == '\n'
    ensures |lines| == 1 ==> r == lines[0]
  {
    if |lines| == 0 then ""
    else if |lines| == 1 then lines[0]
    else lines[0] + "\n" + Join(lines[1..])
  }

  predicate NoNewlines(lines: seq<string>) {
    forall k :: 0 <= k < |lines| ==> '\n' !in lines[k]
  }

  /** Joining the pieces again restores the string. */
  lemma {:induction false} JoinSplit(s: string)
    ensures Join(Split(s)) == s
    decreases |s|
  {
    var i := IndexOfNewline(s);
    if i < |s| {
      var tail := s[i + 1..];
      var lines := Split(s);
      assert lines == [s[..i]] + Split(tail);
      assert lines[0] == s[..i] && lines[1..] == Split(tail) && |lines| >= 2;
      JoinSplit(tail);
      assert Join(lines) == s[..i] + "\n" + tail;
      assert s == s[..i] + "\n" + tail;
    }
  }

  /** The line feed search stops at the end of a line that has none. */
  lemma {:induction false} IndexOfNewlineAt(a: string, b: string)
    requires '\n' !in a
    ensures IndexOfNewline(a + "\n" + b) == |a|
    ensures IndexOfNewline(a) == |a|
    decreases |a|
  {
    if a != [] {
      assert (a + "\n" + b)[1..] == a[1..] + "\n" + b;
      IndexOfNewlineAt(a[1..], b);
    }
  }

  /** One step of `Split`: the first line, then the split of what follows its line feed. */
  lemma SplitStep(s: string)
    requires IndexOfNewline(s) < |s|
    ensures Split(s) == [s[..IndexOfNewline(s)]] + Split(s[IndexOfNewline(s) + 1..])
  {
  }

  /** One step of `Join`: the first line, a line feed, then the rest joined. */
  lemma JoinCons(a: string, rest: seq<string>)
    requires |rest| >= 1
    ensures Join([a] + rest) == a + "\n" + Join(rest)
  {
    var l := [a] + rest;
    assert l[0] == a && l[1..] == rest;
  }

  /** Splitting the joined lines gives the lines back, when none holds a line feed. */
  lemma {:induction false} SplitJoin(lines: seq<string>)
    requires |lines| >= 1 && NoNewlines(lines)
    ensures Split(Join(lines)) == lines
    decreases |lines|
  {
    var a := lines[0];
    assert '\n' !in a;
    if |lines| == 1 {
      IndexOfNewlineAt(a, "");
    } else {
      var tail := lines[1..];
      assert lines == [a] + tail;
      assert NoNewlines(tail) by {
        forall k | 0 <= k < |tail| ensures '\n' !in tail[k] {
          assert tail[k] == lines[k + 1];
        }
      }
      var rest := Join(tail);
      var s := a + "\n" + rest;
      JoinCons(a, tail);
      IndexOfNewlineAt(a, rest);
      SplitStep(s);
      assert s[..|a|] == a && s[|a| + 1..] == rest;
      SplitJoin(tail);
    }
  }

  function Min(a: nat, b: nat): nat { if a <= b then a else b }

  /** `s.split('\n').slice(0, n).join('\n')`. */
  function FirstLines(s: string, n: nat): (r: string)
    ensures r <= s
    ensures n == 0 ==> r == ""
    ensures |Split(s)| <= n ==> r == s
  {
    var lines := Split(s);
    JoinPrefixOfSplit(s, Min(n, |lines|));
    assert |lines| <= n ==> Join(lines[..Min(n, |lines|)]) == s by {
      if |lines| <= n {
        assert lines[..Min(n, |lines|)] == lines;
        JoinSplit(s);
      }
    }
    Join(lines[..Min(n, |lines|)])
  }

  /** A common front keeps a prefix a prefix. */
  lemma PrefixExtend(a: string, b: string, c: string)
    requires b <= c
    ensures a + b <= a + c
  {
    assert (a + c)[..|a + b|] == a + b;
  }

  /** A string is the text before a line feed, the line feed and the text after it. */
  lemma CutAtNewline(s: string, i: nat)
    requires i < |s| && s[i] == '\n'
    ensures s == s[..i] + "\n" + s[i + 1..]
  {
  }

  /** Putting a line in front of a prefix of `tail` gives a prefix of `head\ntail`. */
  lemma JoinPrefixStep(head: string, tail: string, rest: seq<string>)
    requires |rest| >= 1 && Join(rest) <= tail
    ensures Join([head] + rest) <= head + "\n" + tail
  {
    JoinCons(head, rest);
    PrefixExtend(head + "\n", Join(rest), tail);
  }

  /** Joining a leading run of the pieces gives a prefix of the string. */
  lemma {:induction false} JoinPrefixOfSplit(s: string, k: nat)
    requires k <= |Split(s)|
    ensures Join(Split(s)[..k]) <= s
    decreases |s|
  {
    var i := IndexOfNewline(s);
    if k == 0 {
    } else if i == |s| {
      JoinWholeLine(s, k);
    } else if k == 1 {
      JoinFirstLine(s);
    } else {
      SplitStep(s);
      JoinPrefixOfSplit(s[i + 1..], k - 1);
      JoinPrefixCons(s, k);
    }
  }

  /** A string without line feeds is its only piece. */
  lemma JoinWholeLine(s: string, k: nat)
    requires IndexOfNewline(s) == |s| && 1 <= k <= |Split(s)|
    ensures Join(Split(s)[..k]) <= s
  {
    assert Split(s)[..k] == [s];
  }

  /** The first piece alone is a prefix of the string. */
  lemma JoinFirstLine(s: string)
    requires IndexOfNewline(s) < |s|
    ensures Join(Split(s)[..1]) <= s
  {
    SplitStep(s);
    assert Split(s)[..1] == [s[..IndexOfNewline(s)]];
  }

  /** The step of the induction: a prefix of what follows the first line feed,
      with the first line in front, is a prefix of the string. */
  lemma JoinPrefixCons(s: string, k: nat)
    requires IndexOfNewline(s) < |s| && 2 <= k <= |Split(s)|
    requires Join(Split(s[IndexOfNewline(s) + 1..])[..k - 1]) <= s[IndexOfNewline(s) + 1..]
    ensures Join(Split(s)[..k]) <= s
  {
    var i := IndexOfNewline(s);
    var head, tail := s[..i], s[i + 1..];
    SplitStep(s);
    var rest := Split(tail)[..k - 1];
    assert Split(s)[..k] == [head] + rest;
    assert s == head + "\n" + tail by { CutAtNewline(s, i); }
    JoinPrefixStep(head, tail, rest);
  }

  /** The kept lines: a prefix of the string, and exactly its first `n` lines. */
  lemma {:induction false} FirstLinesProperties(s: string, n: nat)
    requires n >= 1
    ensures FirstLines(s, n) <= s
    ensures Split(FirstLines(s, n)) == Split(s)[..Min(n, |Split(s)|)]
    ensures |Split(FirstLines(s, n))| <= n
    ensures |Split(s)| <= n ==> FirstLines(s, n) == s
  {
    var lines := Split(s);
    var k := Min(n, |lines|);
    JoinPrefixOfSplit(s, k);
    assert NoNewlines(lines[..k]) by {
      forall j | 0 <= j < k ensures '\n' !in lines[..k][j] {
        assert lines[..k][j] == lines[j];
      }
    }
    SplitJoin(lines[..k]);
    if |lines| <= n {
      assert lines[..k] == lines;
      JoinSplit(s);
    }
  }

  /** Truncating twice keeps what the first truncation kept. */
  lemma {:induction false} FirstLinesIdempotent(s: string, n: nat)
    requires n >= 1
    ensures FirstLines(FirstLines(s, n), n) == FirstLines(s, n)
  {
    FirstLinesProperties(s, n);
    FirstLinesProperties(FirstLines(s, n), n);
  }
}
