/** The substitution engine behind `re.sub(pattern, '', s)`: the scan walks
    the string from the left, drops the match found at each position, and
    copies the character when there is none. Matches found this way never
    overlap, and text produced by a removal is not scanned again (a single
    pass). */
module Scanner {
  import opened Wrappers
  import opened Regex

  /** Length of the match of `pat` the engine finds at the front of `s`, or 0
      when there is none. */
  function Front(pat: seq<Item>, s: string): (n: nat)
    ensures n <= |s|
  {
    match Greedy(pat, s)
    case None => 0
    case Some(n) => n
  }

  /** `re.sub` with an empty replacement, for a pattern whose matches are
      never empty. */
  function Scan(pat: seq<Item>, s: string): (r: string)
    ensures |r| <= |s|
    decreases |s|
  {
    if |s| == 0 then ""
    else
      var n := Front(pat, s);
      if n > 0 then Scan(pat, s[n..]) else [s[0]] + Scan(pat, s[1..])
  }

  /** No match starts anywhere in `s`. */
  ghost predicate NoMatchFrom(pat: seq<Item>, s: string) {
    forall i :: 0 <= i < |s| ==> Front(pat, s[i..]) == 0
  }

  /** Where no match starts at the front, no match starts anywhere exactly
      when none starts in the rest. */
  lemma NoMatchCons(pat: seq<Item>, s: string)
    requires |s| > 0 && Front(pat, s) == 0
    ensures NoMatchFrom(pat, s) <==> NoMatchFrom(pat, s[1..])
  {
    var t := s[1..];
    if NoMatchFrom(pat, s) {
      forall i | 0 <= i < |t| ensures Front(pat, t[i..]) == 0 {
        assert t[i..] == s[i + 1..];
      }
    }
    if NoMatchFrom(pat, t) {
      forall i | 0 <= i < |s| ensures Front(pat, s[i..]) == 0 {
        if i > 0 {
          assert t[i - 1..] == s[i..];
        } else {
          assert s[i..] == s;
        }
      }
    }
  }

  /** The scan leaves `s` unchanged exactly when no match starts anywhere in
      it; otherwise the result is strictly shorter. */
  lemma {:induction false} ScanUnchanged(pat: seq<Item>, s: string)
    ensures Scan(pat, s) == s <==> NoMatchFrom(pat, s)
    decreases |s|
  {
    if |s| > 0 {
      var n := Front(pat, s);
      if n > 0 {
        assert s[0..] == s;
        assert |Scan(pat, s)| < |s|;
      } else {
        var t := s[1..];
        ScanUnchanged(pat, t);
        NoMatchCons(pat, s);
        var u := Scan(pat, t);
        assert Scan(pat, s) == [s[0]] + u;
        assert ([s[0]] + u)[1..] == u;
        assert s == [s[0]] + t;
      }
    }
  }

  /** The scan of a suffix, one step at position `i`. */
  lemma ScanStep(pat: seq<Item>, s: string, i: nat)
    requires i < |s|
    ensures Front(pat, s[i..]) > 0 ==> Scan(pat, s[i..]) == Scan(pat, s[i + Front(pat, s[i..])..])
    ensures Front(pat, s[i..]) == 0 ==> Scan(pat, s[i..]) == [s[i]] + Scan(pat, s[i + 1..])
  {
    var rest := s[i..];
    assert rest[Front(pat, rest)..] == s[i + Front(pat, rest)..];
    assert rest[1..] == s[i + 1..];
  }

  /** The scan as the loop a regex engine runs: `t` is the text not yet
      scanned, `r` what has been output so far. */
  method ScanLoop(pat: seq<Item>, s: string) returns (r: string)
    ensures r == Scan(pat, s)
  {
    r := "";
    var t := s;
    while |t| > 0
      invariant r + Scan(pat, t) == Scan(pat, s)
      decreases |t|
    {
      var n := Front(pat, t);
      if n > 0 {
        t := t[n..];
      } else {
        assert r + Scan(pat, t) == (r + [t[0]]) + Scan(pat, t[1..]);
        r := r + [t[0]];
        t := t[1..];
      }
    }
    assert r + Scan(pat, t) == r;
  }
}
