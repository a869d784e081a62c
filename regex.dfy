/** The fragment of Python's regular expressions that the vendor rules use:
    literal characters and greedy repetitions of a character class. A pattern
    is a sequence of items matched one after the other. */
module Regex {
  import opened Wrappers
  import opened Chars

  datatype Item =
    | Lit(w: string)                  // the text w itself
    | Times(k: CharClass, n: nat)     // k{n}: exactly n characters of class k
    | AtLeast(k: CharClass, lo: nat)  // k{lo,}, greedy: k* is lo = 0, k+ is lo = 1

  /** The language of a pattern: `Lang(r, t)` holds when the whole of `t` is
      one match of `r`, for some choice of repetition counts. */
  ghost predicate Lang(r: seq<Item>, t: string)
    decreases |r|
  {
    if |r| == 0 then |t| == 0
    else
      match r[0]
      case Lit(w) => |w| <= |t| && t[..|w|] == w && Lang(r[1..], t[|w|..])
      case Times(k, n) => n <= |t| && AllIn(k, t[..n]) && Lang(r[1..], t[n..])
      case AtLeast(k, lo) => exists j :: lo <= j <= |t| && AllIn(k, t[..j]) && Lang(r[1..], t[j..])
  }

  /** How many characters the single item `x` takes at the front of `s` when
      every repetition is greedy, or None when it cannot match there. */
  function Take(x: Item, s: string): (res: Option<nat>)
    ensures res.Some? ==> res.value <= |s|
  {
    match x
    case Lit(w) => if |w| <= |s| && s[..|w|] == w then Some(|w|) else None
    case Times(k, n) => if n <= |s| && AllIn(k, s[..n]) then Some(n) else None
    case AtLeast(k, lo) => var j := RunLen(k, s); if j >= lo then Some(j) else None
  }

  /** Greedy matching without backtracking: each item takes what `Take` gives
      it and the rest of the pattern continues from there. */
  function Greedy(r: seq<Item>, s: string): (res: Option<nat>)
    ensures res.Some? ==> res.value <= |s|
    decreases |r|
  {
    if |r| == 0 then Some(0)
    else
      match Take(r[0], s)
      case None => None
      case Some(j) =>
        match Greedy(r[1..], s[j..])
        case None => None
        case Some(n) => Some(j + n)
  }

  /** An item that can match the empty string. */
  predicate MayBeEmpty(x: Item) {
    match x
    case Lit(w) => |w| == 0
    case Times(_, n) => n == 0
    case AtLeast(_, lo) => lo == 0
  }

  predicate Nullable(r: seq<Item>) {
    forall i :: 0 <= i < |r| ==> MayBeEmpty(r[i])
  }

  /** Some non-empty match of `r` can begin with `c`. */
  predicate CanStart(r: seq<Item>, c: char)
    decreases |r|
  {
    |r| > 0 &&
    match r[0]
    case Lit(w) => if |w| > 0 then c == w[0] else CanStart(r[1..], c)
    case Times(k, n) => if n > 0 then In(k, c) else CanStart(r[1..], c)
    case AtLeast(k, lo) => In(k, c) || (lo == 0 && CanStart(r[1..], c))
  }

  /** Every open-ended repetition is followed by something that cannot begin
      with a character of its class, so giving back characters never helps
      the rest of the pattern: backtracking is never needed. */
  ghost predicate Deterministic(r: seq<Item>)
    decreases |r|
  {
    |r| == 0 ||
    (Deterministic(r[1..]) &&
     match r[0]
     case AtLeast(k, _) => forall c :: In(k, c) ==> !CanStart(r[1..], c)
     case _ => true)
  }

  lemma {:induction false} StartChar(r: seq<Item>, t: string)
    requires Lang(r, t) && |t| > 0
    ensures CanStart(r, t[0])
    decreases |r|
  {
    match r[0]
    case Lit(w) =>
      if |w| == 0 {
        assert t[|w|..] == t;
        StartChar(r[1..], t);
      } else {
        assert t[..|w|][0] == t[0];
      }
    case Times(k, n) =>
      if n == 0 {
        assert t[n..] == t;
        StartChar(r[1..], t);
      } else {
        assert t[..n][0] == t[0];
      }
    case AtLeast(k, lo) =>
      var j :| lo <= j <= |t| && AllIn(k, t[..j]) && Lang(r[1..], t[j..]);
      if j == 0 {
        assert t[j..] == t;
        StartChar(r[1..], t);
      } else {
        assert t[..j][0] == t[0];
      }
  }

  lemma {:induction false} EmptyMatch(r: seq<Item>)
    requires Lang(r, "")
    ensures Nullable(r)
    decreases |r|
  {
    if |r| > 0 {
      match r[0]
      case Lit(w) =>
        EmptyMatch(r[1..]);
      case Times(k, n) =>
        EmptyMatch(r[1..]);
      case AtLeast(k, lo) =>
        var j :| lo <= j <= 0 && AllIn(k, ""[..j]) && Lang(r[1..], ""[j..]);
        assert ""[j..] == "";
        EmptyMatch(r[1..]);
    }
  }

  lemma {:induction false} NullableGreedy(r: seq<Item>, s: string)
    requires Nullable(r)
    ensures Greedy(r, s).Some?
    decreases |r|
  {
    if |r| > 0 {
      assert MayBeEmpty(r[0]);
      var j := Take(r[0], s).value;
      NullableGreedy(r[1..], s[j..]);
    }
  }

  /** What the first item takes, followed by a match of the rest, is a
      match. */
  lemma TakeLang(r: seq<Item>, s: string, j: nat, n: nat)
    requires |r| > 0 && Take(r[0], s) == Some(j) && j <= n <= |s|
    requires Lang(r[1..], s[j..n])
    ensures Lang(r, s[..n])
  {
    var t := s[..n];
    assert t[j..] == s[j..n];
    match r[0]
    case Lit(w) =>
      assert t[..|w|] == s[..|w|];
    case Times(k, m) =>
      assert t[..m] == s[..m];
    case AtLeast(k, lo) =>
      assert t[..j] == s[..j];
  }

  /** What the greedy matcher takes is a match. */
  lemma {:induction false} GreedySound(r: seq<Item>, s: string)
    requires Greedy(r, s).Some?
    ensures Lang(r, s[..Greedy(r, s).value])
    decreases |r|
  {
    if |r| > 0 {
      var j := Take(r[0], s).value;
      var n := Greedy(r, s).value;
      GreedySound(r[1..], s[j..]);
      assert s[j..][..n - j] == s[j..n];
      TakeLang(r, s, j, n);
    }
  }

  /** For a deterministic pattern, the greedy matcher succeeds whenever any
      prefix of `s` matches, and takes at least as much as that prefix. */
  lemma {:induction false} GreedyDominates(r: seq<Item>, s: string, k: nat)
    requires Deterministic(r) && k <= |s| && Lang(r, s[..k])
    ensures Greedy(r, s).Some? && k <= Greedy(r, s).value
    decreases |r|, 1
  {
    if |r| > 0 {
      match r[0]
      case Lit(w) => FixedDominates(r, s, k, |w|);
      case Times(_, n) => FixedDominates(r, s, k, n);
      case AtLeast(_, _) => RunDominates(r, s, k);
    }
  }

  /** GreedyDominates for a first item of fixed length `n`. */
  lemma {:induction false} FixedDominates(r: seq<Item>, s: string, k: nat, n: nat)
    requires Deterministic(r) && k <= |s| && Lang(r, s[..k])
    requires |r| > 0 && ((r[0].Lit? && n == |r[0].w|) || (r[0].Times? && n == r[0].n))
    ensures Greedy(r, s).Some? && k <= Greedy(r, s).value
    decreases |r|, 0
  {
    var t := s[..k];
    assert n <= k && Lang(r[1..], t[n..]);
    assert t[..n] == s[..n];
    assert Take(r[0], s) == Some(n);
    assert t[n..] == s[n..][..k - n];
    GreedyDominates(r[1..], s[n..], k - n);
  }

  /** A run of class `k` at the front of `s` is no longer than `RunLen`. */
  lemma {:induction false} RunBound(k: CharClass, s: string, j: nat)
    requires j <= |s| && AllIn(k, s[..j])
    ensures j <= RunLen(k, s)
  {
    if j > 0 {
      assert s[..j][0] == s[0];
      assert s[1..][..j - 1] == s[..j][1..];
      RunBound(k, s[1..], j - 1);
    }
  }

  /** GreedyDominates for a first item `k{lo,}`. */
  lemma {:induction false} RunDominates(r: seq<Item>, s: string, k: nat)
    requires Deterministic(r) && k <= |s| && Lang(r, s[..k])
    requires |r| > 0 && r[0].AtLeast?
    ensures Greedy(r, s).Some? && k <= Greedy(r, s).value
    decreases |r|, 0
  {
    var kc, lo := r[0].k, r[0].lo;
    var t := s[..k];
    var j :| lo <= j <= |t| && AllIn(kc, t[..j]) && Lang(r[1..], t[j..]);
    var run := RunLen(kc, s);
    assert t[..j] == s[..j];
    RunBound(kc, s, j);
    assert t[j..] == s[j..][..k - j];
    assert t[j..] == s[j..k];
    if j == run {
      GreedyDominates(r[1..], s[j..], k - j);
    } else {
      RestEmpty(r[1..], kc, s, j, k);
    }
    assert Take(r[0], s) == Some(run);
  }

  /** When a greedy run `kc{lo,}` stops short of its longest extent at `j`,
      the rest of a deterministic pattern, which cannot begin with a
      character of class `kc`, matched the empty string there; so it matches
      after the whole run as well. */
  lemma RestEmpty(rest: seq<Item>, kc: CharClass, s: string, j: nat, k: nat)
    requires forall c :: In(kc, c) ==> !CanStart(rest, c)
    requires j < RunLen(kc, s) && j <= k <= |s| && Lang(rest, s[j..k])
    ensures k == j && Greedy(rest, s[RunLen(kc, s)..]).Some?
  {
    var run := RunLen(kc, s);
    assert s[..run][j] == s[j];
    if k > j {
      var u := s[j..k];
      assert u[0] == s[j];
      StartChar(rest, u);
      assert false;
    }
    assert s[j..k] == "";
    EmptyMatch(rest);
    NullableGreedy(rest, s[run..]);
  }

  /** The greedy matcher finds exactly the longest match at the front of
      `s`, and finds nothing exactly when no prefix of `s` matches. This is
      what Python's backtracking engine returns for a deterministic pattern:
      its greedy first attempt already succeeds whenever any attempt can. */
  lemma GreedyIsLongest(r: seq<Item>, s: string)
    requires Deterministic(r)
    ensures Greedy(r, s).Some? ==> Lang(r, s[..Greedy(r, s).value])
    ensures Greedy(r, s).Some? ==> forall k :: Greedy(r, s).value < k <= |s| ==> !Lang(r, s[..k])
    ensures Greedy(r, s).None? ==> forall k :: 0 <= k <= |s| ==> !Lang(r, s[..k])
  {
    if Greedy(r, s).Some? {
      GreedySound(r, s);
    }
    forall k | 0 <= k <= |s| && Lang(r, s[..k])
      ensures Greedy(r, s).Some? && k <= Greedy(r, s).value
    {
      GreedyDominates(r, s, k);
    }
  }
}
