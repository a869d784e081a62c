/** `extract_vendor` (main.py lines 26-36): four substitutions applied in a
    fixed order, then the last three whitespace-separated tokens joined by
    single spaces. */
module Vendor {
  import opened Chars
  import opened Regex
  import opened Scanner
  import opened Patterns
  import opened Tokens

  /** How many trailing tokens make the label (the slice `[-3:]`). */
  const LabelTokens: nat := 3

  /** The four rules in the order `extract_vendor` applies them: the
      e-transfer code, masked card numbers, a long numeric prefix, memo
      transaction ids. */
  const Rules: seq<Pattern> := [ETransfer, MaskedCard, NumericPrefix, MemoId]

  /** The text once each rule of `rules` has run on it, in order. */
  function Clean(rules: seq<Pattern>, s: string): (r: string)
    ensures |r| <= |s|
    decreases |rules|
  {
    if |rules| == 0 then s
    else
      SubUnchanged(rules[0], s);
      Clean(rules[1..], Sub(rules[0], s))
  }

  /** The company text once the four rules have run. */
  function Cleaned(company: string): string {
    Clean(Rules, company)
  }

  /** The rules run one after the other, each on the output of the one
      before, in source order. */
  lemma CleanedInOrder(company: string)
    ensures Cleaned(company) == Sub(MemoId, Sub(NumericPrefix, Sub(MaskedCard, Sub(ETransfer, company))))
  {
    var c1 := Sub(ETransfer, company);
    var c2 := Sub(MaskedCard, c1);
    var c3 := Sub(NumericPrefix, c2);
    var c4 := Sub(MemoId, c3);
    assert Rules[1..] == [MaskedCard, NumericPrefix, MemoId];
    assert Rules[1..][1..] == [NumericPrefix, MemoId];
    assert Rules[1..][1..][1..] == [MemoId];
    assert Rules[1..][1..][1..][1..] == [];
    assert Clean(Rules[1..][1..][1..][1..], c4) == c4;
    assert Clean(Rules[1..][1..][1..], c3) == c4;
    assert Clean(Rules[1..][1..], c2) == c4;
    assert Clean(Rules[1..], c1) == c4;
  }

  /** Rules that find nothing leave the text as it is. */
  lemma {:induction false} CleanPlain(rules: seq<Pattern>, s: string)
    requires forall i :: 0 <= i < |rules| ==> !Occurs(rules[i], s)
    ensures Clean(rules, s) == s
    decreases |rules|
  {
    if |rules| > 0 {
      SubUnchanged(rules[0], s);
      CleanPlain(rules[1..], s);
    }
  }

  /** The last three tokens of cleaned text, joined by single spaces:
      splitting the label gives those tokens back. */
  function Label(cleaned: string): (v: string)
    ensures Split(v) == LastTokens(Split(cleaned), LabelTokens)
  {
    var last := LastTokens(Split(cleaned), LabelTokens);
    LastWords(Split(cleaned), LabelTokens);
    SplitJoin(last);
    Join(last)
  }

  /** The vendor label of a company description: the last three tokens of the
      text the four rules leave. */
  function VendorLabel(company: string): (v: string)
    ensures Split(v) == LastTokens(Split(Cleaned(company)), LabelTokens)
  {
    Label(Cleaned(company))
  }

  /** `extract_vendor`, reassigning `company` one rule at a time. */
  method ExtractVendor(company: string) returns (v: string)
    ensures v == VendorLabel(company)
  {
    var c := company;
    c := Substitute(ETransfer, c);
    c := Substitute(MaskedCard, c);
    c := Substitute(NumericPrefix, c);
    c := Substitute(MemoId, c);
    CleanedInOrder(company);
    v := Join(LastTokens(Split(c), LabelTokens));
  }

  lemma LastWords(ts: seq<string>, n: nat)
    requires AllWords(ts)
    ensures AllWords(LastTokens(ts, n))
  {
    var last := LastTokens(ts, n);
    forall i | 0 <= i < |last| ensures IsWord(last[i]) {
      assert last[i] == ts[|ts| - |last| + i];
    }
  }

  /** The label is made of the last three tokens of the cleaned text, in
      order, separated by single spaces; it keeps every token when there are
      at most three, and it is empty exactly when nothing but whitespace is
      left after cleaning. */
  lemma LabelShape(s: string)
    ensures Split(Label(s)) == LastTokens(Split(s), LabelTokens)
    ensures |Split(Label(s))| == if |Split(s)| < LabelTokens then |Split(s)| else LabelTokens
    ensures |Split(s)| <= LabelTokens ==> Split(Label(s)) == Split(s)
    ensures SingleSpaced(Label(s))
    ensures Label(s) == "" <==> AllIn(Space, s)
  {
    var last := LastTokens(Split(s), LabelTokens);
    LastWords(Split(s), LabelTokens);
    SplitJoin(last);
    JoinSingleSpaced(last);
    SplitNormalises(s);
  }

  /** Labelling is idempotent: a label is its own label when none of the
      four rules finds anything in it. */
  lemma LabelIdempotent(company: string)
    requires var v := VendorLabel(company);
      !Occurs(ETransfer, v) && !Occurs(MaskedCard, v) &&
      !Occurs(NumericPrefix, v) && !Occurs(MemoId, v)
    ensures VendorLabel(VendorLabel(company)) == VendorLabel(company)
  {
    var v := VendorLabel(company);
    PlainText(v);
    LabelShape(Cleaned(company));
    var ts := Split(v);
    assert LastTokens(ts, LabelTokens) == ts;
    LastWords(Split(Cleaned(company)), LabelTokens);
    SplitJoin(LastTokens(Split(Cleaned(company)), LabelTokens));
  }

  /** Text in which no rule finds anything is only re-tokenised. */
  lemma PlainText(company: string)
    requires !Occurs(ETransfer, company) && !Occurs(MaskedCard, company)
    requires !Occurs(NumericPrefix, company) && !Occurs(MemoId, company)
    ensures Cleaned(company) == company
    ensures VendorLabel(company) == Label(company)
  {
    CleanPlain(Rules, company);
  }

  /** The rules run in order: a masked card number is removed before the
      numeric-prefix rule looks at the text, so the digits in front of it no
      longer count towards the six the prefix rule needs. */
  lemma CardBeforePrefix(company: string)
    requires company == "1234567*8"
    ensures Cleaned(company) == "123"
    ensures VendorLabel(company) == "123"
    ensures Sub(MemoId, Sub(MaskedCard, Sub(NumericPrefix, Sub(ETransfer, company)))) == "*8"
  {
    CleanedExample(company);
    LabelExample(Cleaned(company));
    NoTransferExample(company);
    SwappedExample(company);
  }

  /** With the prefix rule first, the seven leading digits go, and what is
      left is too short for a card number and holds no `M`. */
  lemma SwappedExample(s: string)
    requires s == "1234567*8"
    ensures Sub(MemoId, Sub(MaskedCard, Sub(NumericPrefix, s))) == "*8"
  {
    PrefixExample(s);
    ShortCardExample(Sub(NumericPrefix, s));
    NoMemoExample(Sub(NumericPrefix, s));
  }

  /** Seven leading digits and no whitespace after them: all seven go. */
  lemma PrefixExample(s: string)
    requires s == "1234567*8"
    ensures Sub(NumericPrefix, s) == "*8"
  {
    NumericPrefixLen(s);
    assert s[7..] == "*8";
    assert RunLen(Digit, s[7..]) == 0;
    assert RunLen(Digit, s[5..]) == 2 by {
      assert s[5..][1..] == s[6..] && s[6..][1..] == s[7..];
    }
    assert RunLen(Digit, s[3..]) == 4 by {
      assert s[3..][1..] == s[4..] && s[4..][1..] == s[5..];
    }
    assert RunLen(Digit, s[1..]) == 6 by {
      assert s[1..][1..] == s[2..] && s[2..][1..] == s[3..];
    }
    assert RunLen(Digit, s) == 7;
    assert RunLen(Space, s[7..]) == 0;
  }

  lemma NoMemoExample(t: string)
    requires t == "*8"
    ensures Sub(MemoId, t) == t
  {
    forall i | 0 <= i < |t| ensures !CanStart(Syntax(MemoId), t[i]) {
      FirstChars(t[i]);
    }
    NoStart(MemoId, t);
  }

  /** Two characters are too few for a card number. */
  lemma ShortCardExample(t: string)
    requires t == "*8"
    ensures Sub(MaskedCard, t) == t
  {
    var pat := Syntax(MaskedCard);
    MaskedCardLen(t);
    MaskedCardLen(t[1..]);
    ScanStep(pat, t, 0);
    ScanStep(pat, t, 1);
    assert t[2..] == "";
    assert t[0..] == t;
  }

  lemma CleanedExample(s: string)
    requires s == "1234567*8"
    ensures Cleaned(s) == "123"
  {
    CleanedInOrder(s);
    NoTransferExample(s);
    MaskedExample(s);
    ShortPrefixExample(Sub(MaskedCard, s));
  }

  /** The example holds no `E`, so the e-transfer rule finds nothing. */
  lemma NoTransferExample(s: string)
    requires s == "1234567*8"
    ensures Sub(ETransfer, s) == s
  {
    forall i | 0 <= i < |s| ensures !CanStart(Syntax(ETransfer), s[i]) {
      FirstChars(s[i]);
    }
    NoStart(ETransfer, s);
  }

  /** Three digits are too few for the numeric-prefix rule, and the memo
      rule finds no `M`. */
  lemma ShortPrefixExample(t: string)
    requires t == "123"
    ensures Sub(MemoId, Sub(NumericPrefix, t)) == t
  {
    NumericPrefixLen(t);
    assert RunLen(Digit, t) == 3;
    forall i | 0 <= i < |t| ensures !CanStart(Syntax(MemoId), t[i]) {
      FirstChars(t[i]);
    }
    NoStart(MemoId, t);
  }

  lemma LabelExample(t: string)
    requires t == "123"
    ensures Label(t) == t
  {
    SplitWord(t, "");
    assert t + "" == t;
  }

  lemma CardAt(t: string)
    requires t == "4567*8"
    ensures MatchLen(MaskedCard, t) == 6
  {
    MaskedCardLen(t);
    var u := t[4..];
    assert u == "*8";
    assert RunLen(Star, u) == 1 by {
      assert u[0] == '*' && u[1] == '8';
    }
    assert u[1..] == "8";
    assert RunLen(Digit, u[1..]) == 1;
  }

  /** No masked card number starts four digits before another digit. */
  lemma NoCardAt(t: string)
    requires |t| > 4 && IsDigit(t[4])
    ensures MatchLen(MaskedCard, t) == 0
  {
    MaskedCardLen(t);
    assert t[4..][0] == t[4];
  }

  lemma MaskedExample(s: string)
    requires s == "1234567*8"
    ensures Sub(MaskedCard, s) == "123"
  {
    var pat := Syntax(MaskedCard);
    NoCardAt(s);
    NoCardAt(s[1..]);
    NoCardAt(s[2..]);
    CardScan(s[3..]);
    ScanStep(pat, s, 0);
    ScanStep(pat, s, 1);
    ScanStep(pat, s, 2);
    assert Scan(pat, s[2..]) == "3";
    assert Scan(pat, s[1..]) == "23";
    assert s[0..] == s;
  }

  /** The card number is all that is left, and it goes. */
  lemma CardScan(t: string)
    requires t == "4567*8"
    ensures Scan(Syntax(MaskedCard), t) == ""
  {
    CardAt(t);
    assert t[6..] == "";
  }
}
