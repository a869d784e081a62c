/** The four `re.sub(pattern, '', company)` rules of `extract_vendor`
    (main.py lines 28-34), each with Python's semantics: at every position
    the longest (greedy) match is removed, matches never overlap, and the
    scan is a single pass over its input. */
module Patterns {
  import opened Wrappers
  import opened Chars
  import opened Regex
  import opened Scanner

  /** The rules, named after what they strip. */
  datatype Pattern =
    | ETransfer      // E-TRANSFER\d+
    | MaskedCard     // \d{4}\*+\d*
    | NumericPrefix  // ^\d{6,}\s*
    | MemoId         // MEMO EMPTX-\d+\s*

  /** The pattern text, item by item (without the `^` anchor). Every rule
      begins with an item that takes at least one character. */
  function Syntax(p: Pattern): (items: seq<Item>)
    ensures |items| > 0 && !MayBeEmpty(items[0])
  {
    match p
    case ETransfer => [Lit("E-TRANSFER"), AtLeast(Digit, 1)]
    case MaskedCard => [Times(Digit, 4), AtLeast(Star, 1), AtLeast(Digit, 0)]
    case NumericPrefix => [AtLeast(Digit, 6), AtLeast(Space, 0)]
    case MemoId => [Lit("MEMO EMPTX-"), AtLeast(Digit, 1), AtLeast(Space, 0)]
  }

  /** Only the numeric-prefix rule carries `^`: without the MULTILINE flag it
      can match at the start of the string and nowhere else. */
  predicate Anchored(p: Pattern) {
    p.NumericPrefix?
  }

  /** The whole of `t` is one match of `p`. */
  ghost predicate Matches(p: Pattern, t: string) {
    Lang(Syntax(p), t)
  }

  /** Length of the match of `p` that the regex engine finds at the front of
      `s`, or 0 when there is none. */
  function MatchLen(p: Pattern, s: string): (n: nat)
    ensures n <= |s|
  {
    Front(Syntax(p), s)
  }

  /** `re.sub(p, '', s)`: an anchored pattern can only match at position 0;
      any other pattern is removed wherever the scan meets it. */
  function Sub(p: Pattern, s: string): (r: string)
    ensures |r| <= |s|
    ensures Anchored(p) ==> r == s[|s| - |r|..]
  {
    if Anchored(p) then s[MatchLen(p, s)..] else Scan(Syntax(p), s)
  }

  /** `re.search(p, s)` finds something. */
  ghost predicate Occurs(p: Pattern, s: string) {
    exists i, k :: 0 <= i < k <= |s| && (i == 0 || !Anchored(p)) && Matches(p, s[i..k])
  }

  /** Each rule needs no backtracking and never matches the empty string. */
  lemma WellFormed(p: Pattern)
    ensures Deterministic(Syntax(p))
    ensures !Nullable(Syntax(p))
  {
    var r := Syntax(p);
    match p
    case ETransfer =>
      assert r[1..] == [AtLeast(Digit, 1)] && r[1..][1..] == [];
      assert Deterministic(r[1..][1..]);
      assert forall c :: !CanStart(r[1..][1..], c);
      assert Deterministic(r[1..]);
      assert !MayBeEmpty(r[0]);
    case MaskedCard =>
      assert r[1..][1..] == [AtLeast(Digit, 0)] && r[1..][1..][1..] == [];
      assert Deterministic(r[1..][1..]);
      assert Deterministic(r[1..]);
      assert !MayBeEmpty(r[0]);
    case NumericPrefix =>
      assert r[1..] == [AtLeast(Space, 0)] && r[1..][1..] == [];
      assert Deterministic(r[1..][1..]);
      assert forall c :: !CanStart(r[1..][1..], c);
      assert Deterministic(r[1..]);
      assert forall c :: In(Digit, c) ==> !CanStart(r[1..], c);
      assert !MayBeEmpty(r[0]);
    case MemoId =>
      assert r[1..][1..] == [AtLeast(Space, 0)] && r[1..][1..][1..] == [];
      assert forall c :: !CanStart(r[1..][1..][1..], c);
      assert Deterministic(r[1..][1..][1..]);
      assert Deterministic(r[1..][1..]);
      assert Deterministic(r[1..]);
      assert !MayBeEmpty(r[0]);
  }

  /** The engine's match is the longest one: a non-zero `MatchLen` is a
      match of the pattern, no longer prefix is one, and a zero `MatchLen`
      means no prefix matches at all. */
  lemma LongestMatch(p: Pattern, s: string)
    ensures MatchLen(p, s) > 0 ==> Matches(p, s[..MatchLen(p, s)])
    ensures forall k :: MatchLen(p, s) < k <= |s| ==> !Matches(p, s[..k])
  {
    WellFormed(p);
    GreedyIsLongest(Syntax(p), s);
  }

  /** A match of `p` starts at position `i` of `s` exactly when the scanner
      sees one there. */
  lemma MatchAt(p: Pattern, s: string, i: nat)
    requires i < |s|
    ensures MatchLen(p, s[i..]) == 0 <==> forall k :: i < k <= |s| ==> !Matches(p, s[i..k])
  {
    var n := MatchLen(p, s[i..]);
    LongestMatch(p, s[i..]);
    if n > 0 {
      assert s[i..][..n] == s[i..i + n];
    } else {
      forall k | i < k <= |s| ensures !Matches(p, s[i..k]) {
        assert s[i..][..k - i] == s[i..k];
      }
    }
  }

  /** `re.sub(p, '', s)` returns `s` itself exactly when `re.search(p, s)`
      finds nothing; otherwise the result is strictly shorter. */
  lemma SubUnchanged(p: Pattern, s: string)
    ensures Sub(p, s) == s <==> !Occurs(p, s)
    ensures |Sub(p, s)| <= |s|
  {
    if Anchored(p) {
      AnchoredUnchanged(p, s);
    } else {
      UnanchoredUnchanged(p, s);
    }
  }

  lemma AnchoredUnchanged(p: Pattern, s: string)
    requires Anchored(p)
    ensures s[MatchLen(p, s)..] == s <==> !Occurs(p, s)
  {
    var n := MatchLen(p, s);
    LongestMatch(p, s);
    if n > 0 {
      assert s[0..n] == s[..n];
    } else {
      forall i, k | 0 <= i < k <= |s| && i == 0 ensures !Matches(p, s[i..k]) {
        assert s[i..k] == s[..k];
      }
    }
  }

  lemma UnanchoredUnchanged(p: Pattern, s: string)
    requires !Anchored(p)
    ensures Scan(Syntax(p), s) == s <==> !Occurs(p, s)
  {
    ScanUnchanged(Syntax(p), s);
    if Occurs(p, s) {
      var i, k :| 0 <= i < k <= |s| && Matches(p, s[i..k]);
      MatchAt(p, s, i);
    } else {
      forall i | 0 <= i < |s| ensures MatchLen(p, s[i..]) == 0 {
        MatchAt(p, s, i);
      }
    }
  }

  /** How much `^\d{6,}\s*` takes: the whole run of digits when it has at
      least six, followed by the whole run of whitespace after it. */
  lemma NumericPrefixLen(s: string)
    ensures var d := RunLen(Digit, s);
      MatchLen(NumericPrefix, s) == if d >= 6 then d + RunLen(Space, s[d..]) else 0
  {
    var r := Syntax(NumericPrefix);
    var d := RunLen(Digit, s);
    assert r[1..] == [AtLeast(Space, 0)] && r[1..][1..] == [];
    if d >= 6 {
      assert Greedy(r[1..], s[d..]) == Some(RunLen(Space, s[d..]));
    }
  }

  /** The numeric-prefix rule changes the string exactly when it begins with
      at least six digits; what it removes is then a match of `\d{6,}\s*`
      (the longest one, by LongestMatch) and the rest is kept as it is. */
  lemma NumericPrefixRule(s: string)
    ensures Sub(NumericPrefix, s) != s <==> |s| >= 6 && AllIn(Digit, s[..6])
    ensures var r := Sub(NumericPrefix, s); |r| <= |s| && s == s[..|s| - |r|] + r
    ensures var r := Sub(NumericPrefix, s); r != s ==> Matches(NumericPrefix, s[..|s| - |r|])
  {
    var d := RunLen(Digit, s);
    var n := MatchLen(NumericPrefix, s);
    NumericPrefixLen(s);
    LongestMatch(NumericPrefix, s);
    if d >= 6 {
      assert s[..d][..6] == s[..6];
    } else if |s| >= 6 {
      assert s[..6][d] == s[d];
    }
    assert s == s[..n] + s[n..];
  }

  /** A trailing `k*` takes the whole run of class `k`. */
  lemma RunTail(k: CharClass, u: string)
    ensures Greedy([AtLeast(k, 0)], u) == Some(RunLen(k, u))
  {
    var r := [AtLeast(k, 0)];
    assert r[1..] == [];
  }

  /** How much `\*+\d*` takes: the whole run of stars (at least one) and
      the whole run of digits after it. */
  lemma StarsThenDigits(t: string)
    ensures var st := RunLen(Star, t);
      Greedy([AtLeast(Star, 1), AtLeast(Digit, 0)], t) ==
      if st > 0 then Some(st + RunLen(Digit, t[st..])) else None
  {
    var r1 := [AtLeast(Star, 1), AtLeast(Digit, 0)];
    assert r1[1..] == [AtLeast(Digit, 0)];
    RunTail(Digit, t[RunLen(Star, t)..]);
  }

  /** How much `\d{4}\*+\d*` takes: four digits, the whole run of stars
      after them (at least one), and the whole run of digits after that. */
  lemma MaskedCardLen(s: string)
    ensures MatchLen(MaskedCard, s) ==
      if |s| >= 4 && AllIn(Digit, s[..4]) && RunLen(Star, s[4..]) > 0
      then 4 + RunLen(Star, s[4..]) + RunLen(Digit, s[4 + RunLen(Star, s[4..])..])
      else 0
  {
    var r := Syntax(MaskedCard);
    assert r[1..] == [AtLeast(Star, 1), AtLeast(Digit, 0)];
    if |s| >= 4 && AllIn(Digit, s[..4]) {
      var t := s[4..];
      StarsThenDigits(t);
      assert t[RunLen(Star, t)..] == s[4 + RunLen(Star, t)..];
    }
  }

  /** A match begins with a character that can begin the pattern. */
  lemma MatchStart(p: Pattern, s: string)
    ensures MatchLen(p, s) > 0 ==> CanStart(Syntax(p), s[0])
  {
    if MatchLen(p, s) > 0 {
      LongestMatch(p, s);
      StartChar(Syntax(p), s[..MatchLen(p, s)]);
    }
  }

  /** A pattern none of whose possible first characters occurs in `s` leaves
      `s` as it is. */
  lemma NoStart(p: Pattern, s: string)
    requires forall i :: 0 <= i < |s| ==> !CanStart(Syntax(p), s[i])
    ensures Sub(p, s) == s
  {
    if Anchored(p) {
      if |s| > 0 {
        MatchStart(p, s);
      }
    } else {
      forall i | 0 <= i < |s| ensures MatchLen(p, s[i..]) == 0 {
        MatchStart(p, s[i..]);
      }
      ScanUnchanged(Syntax(p), s);
    }
  }

  /** The characters a match of each unanchored literal rule can begin with. */
  lemma FirstChars(c: char)
    ensures CanStart(Syntax(ETransfer), c) <==> c == 'E'
    ensures CanStart(Syntax(MemoId), c) <==> c == 'M'
  {
    assert Syntax(ETransfer)[0] == Lit("E-TRANSFER");
    assert Syntax(MemoId)[0] == Lit("MEMO EMPTX-");
  }

  /** `re.sub(p, '', s)` as the engine runs it. */
  method Substitute(p: Pattern, s: string) returns (r: string)
    ensures r == Sub(p, s)
  {
    if Anchored(p) {
      r := s[MatchLen(p, s)..];
    } else {
      r := ScanLoop(Syntax(p), s);
    }
  }
}
