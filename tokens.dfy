/** `str.split()` with no separator, `" ".join(...)` and the slice
    `tokens[-n:]`, as used on the last line of `extract_vendor`. */
module Tokens {
  import opened Chars

  /** A token of `str.split()`: a non-empty run without whitespace. */
  predicate IsWord(w: string) {
    |w| > 0 && AllIn(NonSpace, w)
  }

  predicate AllWords(ts: seq<string>) {
    forall i :: 0 <= i < |ts| ==> IsWord(ts[i])
  }

  /** A run of a class followed by a character outside it. */
  lemma {:induction false} RunLenAppend(k: CharClass, a: string, b: string)
    requires AllIn(k, a)
    ensures RunLen(k, a + b) == |a| + RunLen(k, b)
    decreases |a|
  {
    if |a| > 0 {
      assert (a + b)[0] == a[0];
      assert (a + b)[1..] == a[1..] + b;
      RunLenAppend(k, a[1..], b);
    } else {
      assert a + b == b;
    }
  }

  /** `s.split()`: whitespace runs separate tokens, and leading and trailing
      whitespace yields no empty token. */
  function Split(s: string): (ts: seq<string>)
    ensures AllWords(ts)
    decreases |s|
  {
    var sp := RunLen(Space, s);
    if sp == |s| then []
    else
      var t := s[sp..];
      assert t[0] == s[sp];
      var w := RunLen(NonSpace, t);
      [t[..w]] + Split(t[w..])
  }

  /** `" ".join(ts)`. */
  function Join(ts: seq<string>): (r: string)
    ensures |ts| == 0 ==> r == ""
    decreases |ts|
  {
    if |ts| == 0 then ""
    else if |ts| == 1 then ts[0]
    else ts[0] + " " + Join(ts[1..])
  }

  /** `ts[-n:]`: the last `n` tokens, or all of them when there are fewer;
      `ts[-0:]` is the whole list, since `-0` is `0`. */
  function LastTokens(ts: seq<string>, n: nat): (r: seq<string>)
    ensures |r| == if n == 0 || |ts| < n then |ts| else n
    ensures ts == ts[..|ts| - |r|] + r
  {
    if n == 0 || |ts| < n then ts else ts[|ts| - n..]
  }

  /** Leading whitespace does not change the tokens. */
  lemma SplitSkip(a: string, b: string)
    requires AllIn(Space, a)
    ensures Split(a + b) == Split(b)
  {
    var s := a + b;
    RunLenAppend(Space, a, b);
    var sp := RunLen(Space, b);
    assert RunLen(Space, s) == |a| + sp;
    if sp < |b| {
      assert s[|a| + sp..] == b[sp..];
    }
  }

  /** A word followed by whitespace (or nothing) is the first token. */
  lemma SplitWord(w: string, rest: string)
    requires IsWord(w)
    requires |rest| > 0 ==> IsSpace(rest[0])
    ensures Split(w + rest) == [w] + Split(rest)
  {
    var s := w + rest;
    assert s[0] == w[0];
    RunLenAppend(NonSpace, w, rest);
    assert s[..|w|] == w && s[|w|..] == rest;
  }

  /** A word, a space and more text: the word is the first token. */
  lemma SplitGap(w: string, rest: string)
    requires IsWord(w)
    ensures Split(w + " " + rest) == [w] + Split(rest)
  {
    var gap := " " + rest;
    assert w + " " + rest == w + gap;
    assert gap[0] == ' ';
    SplitWord(w, gap);
    SplitSkip(" ", rest);
  }

  /** One step of SplitJoin: a word joined in front of further tokens. */
  lemma SplitJoinStep(ts: seq<string>)
    requires |ts| > 1 && IsWord(ts[0]) && Split(Join(ts[1..])) == ts[1..]
    ensures Split(Join(ts)) == ts
  {
    SplitGap(ts[0], Join(ts[1..]));
    assert [ts[0]] + ts[1..] == ts;
  }

  /** Splitting undoes joining, for tokens that are words. */
  lemma {:induction false} SplitJoin(ts: seq<string>)
    requires AllWords(ts)
    ensures Split(Join(ts)) == ts
    decreases |ts|
  {
    if |ts| == 1 {
      SplitWord(ts[0], "");
      assert ts[0] + "" == ts[0];
    } else if |ts| > 1 {
      SplitJoin(ts[1..]);
      SplitJoinStep(ts);
    }
  }

  /** The joined tokens are words separated by single spaces: no leading,
      trailing or doubled whitespace. */
  predicate SingleSpaced(r: string) {
    (|r| > 0 ==> !IsSpace(r[0]) && !IsSpace(r[|r| - 1])) &&
    forall i :: 0 <= i < |r| && IsSpace(r[i]) ==> r[i] == ' ' && 0 < i < |r| - 1 && !IsSpace(r[i + 1])
  }

  lemma {:induction false} JoinSingleSpaced(ts: seq<string>)
    requires AllWords(ts)
    ensures SingleSpaced(Join(ts))
    ensures Join(ts) == "" <==> |ts| == 0
    decreases |ts|
  {
    if |ts| == 1 {
      assert ts[0][0] == ts[0][0] && !IsSpace(ts[0][|ts[0]| - 1]);
    } else if |ts| > 1 {
      var w := ts[0];
      var rest := Join(ts[1..]);
      JoinSingleSpaced(ts[1..]);
      var r := Join(ts);
      assert r == w + " " + rest;
      forall j | 0 <= j < |w| ensures r[j] == w[j] { }
      forall i | 0 <= i < |r| && IsSpace(r[i])
        ensures r[i] == ' ' && 0 < i < |r| - 1 && !IsSpace(r[i + 1])
      {
        if i < |w| {
          assert false;
        } else if i > |w| {
          assert r[i] == rest[i - |w| - 1];
          if i + 1 < |r| {
            assert r[i + 1] == rest[i - |w|];
          }
        } else {
          assert r[i + 1] == rest[0];
        }
      }
      assert r[0] == w[0];
      assert r[|r| - 1] == rest[|rest| - 1];
    }
  }

  /** Splitting a string and joining its tokens normalises its whitespace;
      the tokens survive the round trip, and a string with no tokens is all
      whitespace. */
  lemma SplitNormalises(s: string)
    ensures Split(Join(Split(s))) == Split(s)
    ensures SingleSpaced(Join(Split(s)))
    ensures Split(s) == [] <==> AllIn(Space, s)
  {
    SplitJoin(Split(s));
    JoinSingleSpaced(Split(s));
    var sp := RunLen(Space, s);
    assert sp == |s| ==> s[..sp] == s;
  }
}
