# Transaction analyzer — a Dafny model

The transaction analyzer is a single Streamlit script, `main.py`. It loads a
bank-statement CSV and fills missing Credit and Debit amounts with 0. It adds a
`Net` column (credit minus debit) and a `Vendor` column: a short label cut out
of the free-text `Company` description by four regular-expression
substitutions, after which the last three words are kept. It then computes:

- the net amount per vendor over all rows, largest first (`net_by_vendor`,
  lines 40-41). Nothing reads or displays it afterwards;
- for a chosen date window, inclusive at both ends, the total credit, the
  total debit, the total net, and a per-vendor table of those three sums
  (`summarize_credit`, `summarize_debit`, `summarize_net`,
  `summarize_transactions`). Lines 63-66 pass these four to `st.metric`
  without a value argument.

The model follows the script's own shape.

- The DataFrame is a class, `Table.Frame`, with one array per column. Its
  methods replace or update columns the way the script's column assignments do
  (the filled Credit and Debit columns, a new `Net` array, a new `Vendor`
  array). The model fills in place where the script assigns a filled copy.
- `extract_vendor` is a method that reassigns the company text one
  substitution at a time. It is proved equal to a function that defines the
  label.
- Each `re.sub` is a left-to-right scanner over `seq<char>` with Python's
  semantics:
  - at each position the engine takes the greedy match;
  - matched text is removed and the scan continues after it;
  - otherwise one character is copied;
  - the anchored `^\d{6,}\s*` can only match at position 0.
- `str.split()`, `" ".join` and the slice `[-3:]` are functions over strings.
- The `summarize_*` functions and the group-by/sort are pure functions over
  the normalised rows. Lemmas relate them to one another.

Amounts are integers (cents, say) and dates are integer day numbers.

Modules, in dependency order:

| module | file | covers |
|---|---|---|
| `Chars` | chars.dfy | the character classes `\d`, `\s`, `\*`, non-whitespace, and maximal runs of a class |
| `Wrappers` | wrappers.dfy | `Option`; a missing amount (NaN) is `None` |
| `Regex` | regex.dfy | pattern items, the language a pattern denotes, and the greedy matcher |
| `Scanner` | scanner.dfy | `re.sub(p, '', s)` for an unanchored pattern, as a function and as a loop |
| `Patterns` | patterns.dfy | the four rules of `extract_vendor` |
| `Tokens` | tokens.dfy | `split()`, `" ".join`, `[-n:]` |
| `Vendor` | vendor.dfy | `extract_vendor` |
| `Table` | table.dfy | the frame and its column assignments (lines 19-22 and 38) |
| `Summary` | summary.dfy | the date window and the three totals |
| `StrOrder` | strorder.dfy | Python's ordering of `str`, used for the group keys |
| `Groups` | groups.dfy | `groupby("Vendor")…sum()` and `summarize_transactions` |
| `Ranking` | ranking.dfy | `net_by_vendor` and its descending sort |
| `Analyzer` | analyzer.dfy | the script from loaded rows to the figures it computes |

### Notes on the code

- `main.py` defines no error for a start date after the end date. On day
  numbers the mask then selects no row and every total is 0
  (`Summary.EmptyWindow`). How the dates themselves are compared is under
  "Left out".
- The comment at line 35 says "last 4", but the slice `[-3:]` keeps three
  tokens, and the model keeps three. For
  `4506****8888547 COFFEE SHOP DOWNTOWN LOCATION` the card number goes, four
  words remain, and the label is `SHOP DOWNTOWN LOCATION`: a cleaned text with
  three or more tokens always yields exactly three (`Vendor.LabelShape`).
- `summarize_transactions` returns the grouped frame in ascending vendor-label
  order (`Groups.GroupByVendorSpec`). Only `net_by_vendor` is sorted by net
  (`Ranking.NetByVendorSpec`).
- The script checks no column schema, sets no upload size limit, shows no
  "no data" notice and exports nothing. The model has none of these either.

## Model

| member | source | states |
|---|---|---|
| `Regex.Greedy` | main.py:28-34 | the regular-expression engine's greedy match at a position, when there is one, lies within the text |
| `Regex.GreedySound` | main.py:28-34 | a length the greedy matcher returns is a match of the pattern text |
| `Regex.GreedyIsLongest` | main.py:28-34 | for a pattern that needs no backtracking, the greedy match is a match, no longer prefix matches, and no match at all means no prefix matches |
| `Scanner.Scan` | main.py:28-34 | `re.sub(p, '', s)` for an unanchored pattern never lengthens the text; what it removes is given by `Scanner.ScanUnchanged`, `Patterns.LongestMatch` and `Patterns.MatchAt` |
| `Scanner.Front` | main.py:28-34 | the length `re.sub` removes at the current position never reaches past the end of the text |
| `Scanner.ScanUnchanged` | main.py:28-34 | `re.sub` with an empty replacement returns its input exactly when no match starts at any position |
| `Scanner.ScanLoop` | main.py:28-34 | the engine's left-to-right loop (drop a match, else copy one character) computes the substitution |
| `Patterns.Syntax` | main.py:28-34 | each of the four regular expressions, as parsed, begins with an item that consumes at least one character |
| `Patterns.WellFormed` | main.py:28-34 | each of the four patterns is matched greedily without backtracking and never matches the empty string |
| `Patterns.LongestMatch` | main.py:28-34 | what a rule removes at a position is a match of its regular expression, and the longest one there |
| `Patterns.MatchAt` | main.py:28-34 | a rule finds nothing at a position exactly when no substring starting there is a match |
| `Patterns.SubUnchanged` | main.py:28-34 | a substitution leaves the text unchanged exactly when `re.search` would find nothing, and never lengthens it |
| `Patterns.NumericPrefixLen` | main.py:32 | `^\d{6,}\s*` removes the whole leading digit run and the whitespace after it when that run has at least six digits, and nothing otherwise |
| `Patterns.NumericPrefixRule` | main.py:32 | the numeric-prefix rule changes the text exactly when it begins with six digits; what it removes is a prefix matching `\d{6,}\s*` and the rest is kept as is |
| `Patterns.MaskedCardLen` | main.py:30 | `\d{4}\*+\d*` at a position takes four digits, every star after them (at least one), and every digit after the stars |
| `Patterns.MatchStart` | main.py:28-34 | a match begins with a character that can begin the pattern |
| `Patterns.NoStart` | main.py:28-34 | text without any possible first character of a rule is left alone by it |
| `Patterns.FirstChars` | main.py:28-34 | an E-TRANSFER code can only begin at an `E`, a memo id only at an `M` |
| `Patterns.Sub` | main.py:28-34 | a substitution never lengthens the text, and the anchored rule leaves a suffix of it (only a prefix is cut off) |
| `Patterns.Substitute` | main.py:28-34 | `re.sub(p, '', s)`: the anchored rule cuts its match off the front, the others are scanned out |
| `Tokens.Split` | main.py:36 | `split()` yields only non-empty tokens without whitespace; `Tokens.SplitSkip` and `Tokens.SplitWord` fix which tokens they are |
| `Tokens.SplitSkip` | main.py:36 | `split()` ignores leading whitespace: whitespace before a text does not change its tokens |
| `Tokens.SplitWord` | main.py:36 | a run of non-whitespace followed by whitespace or the end of the text is `split()`'s first token, and the rest is split on its own |
| `Tokens.LastTokens` | main.py:36 | `[-n:]` keeps `min(n, len)` tokens for `n > 0` and the whole list for `n = 0`, and they are the tail of the list |
| `Tokens.Join` | main.py:36 | joining no words gives the empty string; `Tokens.SplitJoin` and `Tokens.JoinSingleSpaced` state what a join of words is |
| `Tokens.SplitJoin` | main.py:36 | splitting the single-space join of words gives the words back |
| `Tokens.JoinSingleSpaced` | main.py:36 | joined words have no leading, trailing or doubled whitespace, and the join is empty exactly when there are no words |
| `Tokens.SplitNormalises` | main.py:36 | split-then-join keeps the tokens and normalises the whitespace; a text has no tokens exactly when it is all whitespace |
| `Vendor.Clean` | main.py:28-34 | running the rules never lengthens the text |
| `Vendor.CleanedInOrder` | main.py:28-34 | the four rules run in the order E-TRANSFER, masked card, numeric prefix, memo id, each on the previous one's output |
| `Vendor.CleanPlain` | main.py:28-34 | rules that find nothing leave the text as it is |
| `Vendor.Label` | main.py:36 | splitting the label gives back the last three tokens of the cleaned text (all of them when there are fewer) |
| `Vendor.VendorLabel` | main.py:26-36 | splitting a company's label gives back the last three tokens of the text the four rules leave |
| `Vendor.ExtractVendor` | main.py:26-36 | `extract_vendor`, reassigning the company text rule by rule, returns the vendor label |
| `Vendor.LabelShape` | main.py:36 | the label's tokens are the last three of the cleaned text (all of them when there are fewer); the label is single-spaced, and it is empty exactly when the cleaned text is all whitespace |
| `Vendor.PlainText` | main.py:26-36 | text in which no rule finds anything is only re-tokenised |
| `Vendor.LabelIdempotent` | main.py:26-36 | a label in which no rule finds anything is its own label |
| `Vendor.SwappedExample` | main.py:30-32 | with the prefix rule before the card rule, `1234567*8` loses its seven digits and keeps `*8` |
| `Vendor.CardBeforePrefix` | main.py:30-32 | rule order matters: `1234567*8` loses its card number first, and the three digits left are too few for the prefix rule, so the label is `123`; with the prefix rule run first the same text comes out as `*8` |
| `Table.FillNa` | main.py:19-20 | `fillna(0)` keeps every present amount and turns every missing one into 0 |
| `Table.Minus` | main.py:22 | column subtraction is element-wise, and missing where either operand is missing |
| `Table.Apply` | main.py:38 | `Series.apply(f)` holds `f` of every element, in order |
| `Table.ApplySnoc` | main.py:38 | applying to one more element appends that element's image |
| `Table.Labels` | main.py:38 | `apply(extract_vendor)` labels every row of the column, in order |
| `Table.Normalize` | main.py:19-38 | a normalised row keeps its date and company and has net = credit − debit; `Table.NormalizedRows` states its amounts and label |
| `Table.Normalized` | main.py:19-38 | one normalised row per loaded row, in file order |
| `Table.NormalizedRows` | main.py:19-38 | a normalised row keeps its date and company, takes a missing amount as 0, has net = credit − debit, and carries its company's label |
| `Table.AssembleNormalized` | main.py:19-38 | the column assignments applied to the loaded columns leave no amount missing and give the normalised rows |
| `Table.FillNaInPlace` | main.py:19-20 | `fillna(0)` done in place on a column array |
| `Table.LabelAll` | main.py:38 | the loop applying `extract_vendor` to each company yields the label column |
| `Table.Frame.constructor` | main.py:11 | a loaded frame holds the given rows in file order, with no `Net` or `Vendor` yet |
| `Table.Frame.FillMissing` | main.py:19-20 | the Credit and Debit columns are filled in place and nothing else changes |
| `Table.Frame.ComputeNet` | main.py:22 | the new `Net` column is credit minus debit, row by row |
| `Table.Frame.ComputeVendor` | main.py:38 | the new `Vendor` column holds each company's label |
| `Table.Prepare` | main.py:11-38 | after the column assignments every amount is present and the frame's rows are the normalised loaded rows |
| `Summary.WindowExtremes` | main.py:44-45 | on day numbers, a start after the end keeps no row, and a window that holds every row keeps the whole frame |
| `Summary.SummarizeCredit` | main.py:43-46 | `summarize_credit` is 0 when the start is after the end and the whole credit column when every row lies in the window; `Summary.RowContribution` gives each row's share |
| `Summary.SummarizeDebit` | main.py:48-51 | `summarize_debit` is 0 when the start is after the end and the whole debit column when every row lies in the window |
| `Summary.SummarizeNet` | main.py:53-56 | `summarize_net` is 0 when the start is after the end and the whole net column when every row lies in the window; `Summary.NetSummary` relates it to the other two |
| `Summary.Window` | main.py:44-45 | on day numbers, `df[mask]` keeps exactly the rows with `start <= date <= end` and no others |
| `Summary.WindowCounts` | main.py:44-45 | `df[mask]` keeps each row of the window as many times as the frame holds it, duplicates included, and drops every other row |
| `Summary.InWindow` | main.py:44 | the mask `start <= date <= end` holds only when the start is not after the end, and it includes the first and the last day |
| `Summary.Total` | main.py:46-56 | `.sum()` of a column (lines 46, 51 and 56) is 0 when every row's amount in that column is 0, an empty selection included |
| `Summary.RowContribution` | main.py:43-56 | a row adds its amount to a window's total when its date is in the window, the first and the last day included, and adds nothing otherwise |
| `Summary.EmptyWindow` | main.py:43-56 | on day numbers, a start after the end keeps no row, and every total is 0 |
| `Summary.TotalBalanced` | main.py:22 | over balanced rows the net total is the credit total minus the debit total |
| `Summary.NetSummary` | main.py:53-56 | `summarize_net` equals `summarize_credit` minus `summarize_debit` for the same window |
| `Summary.NormalizedBalanced` | main.py:19-22 | every normalised row has net = credit − debit |
| `StrOrder.BelowIrreflexive` | main.py:61 | no string sorts before itself |
| `StrOrder.BelowTransitive` | main.py:61 | the key order is transitive |
| `StrOrder.BelowTotal` | main.py:61 | of two different keys one sorts first |
| `Groups.GroupByVendor` | main.py:61 | `groupby("Vendor")…sum()` has at most one group per row, and none exactly when there are no rows; `Groups.GroupByVendorSpec` states its keys and sums |
| `Groups.OnlyMembers` | main.py:61 | a vendor's rows are exactly the rows carrying its label |
| `Groups.OnlyCounts` | main.py:61 | a vendor's group keeps each of its rows as many times as the rows it is taken from hold it, and no row of another vendor |
| `Groups.AddKeys` | main.py:61 | folding in a row adds its vendor to the keys and no other key |
| `Groups.GroupKeys` | main.py:61 | the group keys are exactly the rows' vendor labels |
| `Groups.AddAscending` | main.py:61 | folding in a row keeps the keys strictly ascending |
| `Groups.AddGroups` | main.py:61 | folding in a row keeps every group equal to the sums of its vendor's rows |
| `Groups.GroupByVendorSpec` | main.py:61 | the grouped frame has one group per vendor label, keys strictly ascending, each holding the credit, debit and net sums of that vendor's rows |
| `Groups.AddTotal` | main.py:61 | folding in a row adds its amount to the column total of the groups |
| `Groups.GroupTotals` | main.py:61 | each column of the grouped frame adds up to the same column of the rows |
| `Groups.SummarizeTransactions` | main.py:58-61 | the per-vendor table has at most one group per row and is empty exactly when no row lies in the window; `Groups.TransactionsGroups` names its groups |
| `Groups.TransactionsAddUp` | main.py:43-61 | the per-vendor credit, debit and net of `summarize_transactions` add up to `summarize_credit`, `summarize_debit` and `summarize_net` |
| `Groups.TransactionsGroups` | main.py:58-61 | every vendor of a row in the window has a group, every group's vendor has a row in the window, and group keys are distinct |
| `Groups.TransactionsBalanced` | main.py:22 | in every group of `summarize_transactions` net = credit − debit |
| `Ranking.Insert` | main.py:41 | inserting an entry adds exactly that entry |
| `Ranking.InsertDescending` | main.py:41 | inserting keeps the entries in non-increasing net order |
| `Ranking.SortByNet` | main.py:41 | `sort_values(by="Net", ascending=False)` returns a permutation ordered by non-increasing net |
| `Ranking.NetColumn` | main.py:40 | the `Net` column of the grouped frame keeps each group's key and net sum, in key order |
| `Ranking.NetByVendor` | main.py:40-41 | `net_by_vendor` is the grouped net column reordered so that no entry has a smaller net than one after it; `Ranking.NetByVendorSpec` names its entries |
| `Ranking.ColumnEntries` | main.py:40 | the grouped net column has one entry per vendor, holding that vendor's net sum, with no entry twice |
| `Ranking.NetByVendorSpec` | main.py:40-41 | `net_by_vendor` is a reordering of the grouped net column by non-increasing net; every vendor appears once with its net sum |
| `Analyzer.Analysis` | main.py:40-61 | the per-vendor table of the computed figures adds up to the credit, debit and net totals |
| `Analyzer.AnalysisConsistent` | main.py:19-61 | for any window, the computed net is credit minus debit and the per-vendor table adds up to the three totals, group by group balanced |
| `Analyzer.Analyze` | main.py:11-61 | the script's figures are those of the normalised rows, and they are consistent |

## Left out

- As written, the script stops at line 17: `st.metric` needs a label and a value, and every call here (lines 17, 63-66) passes one argument, so line 17 raises `TypeError` before line 19 runs. The model describes what lines 19-61 compute as if the presentation calls succeeded.
- The Streamlit interface (main.py:1-17, 63-66): the title, upload widget, date pickers and `st.metric` calls are I/O. `Analyzer.Analyze` takes the loaded rows and the two dates as parameters and returns the figures instead of displaying them. Line 63 passes a whole DataFrame to `st.metric`; that is presentation and is not modelled.
- `pd.read_csv` and `pd.to_datetime` (main.py:11, 13) are library calls. Rows arrive already parsed, with dates as day numbers.
- The date comparison at main.py:44, 49, 54 and 59 is abstracted. The column holds `datetime64` values (line 13), while `st.date_input` returns `datetime.date` values (lines 15-16). Current pandas refuses `>=` and `<=` between the two and raises `TypeError` for every window. Older pandas turned each chosen date into midnight, so rows timed later on the end day were dropped. The model compares day numbers and keeps `start <= date <= end`. Every statement here about the window, including "no error for a start after the end", holds on day numbers only.
- Floating-point amounts and the `:.2f` formatting (main.py:64-66). Amounts are unbounded integers, so sums are exact.
- The first `Vendor` assignment (main.py:24) is not modelled. Line 38 overwrites its column before anything reads it. It still runs `name.split()` on every company first, so a non-string `Company` raises `AttributeError` there, before line 38 is reached.
- Unicode: `\d`, `\s` and `str.split()` accept every Unicode digit and whitespace character. The model accepts ASCII digits and the ASCII whitespace characters Python recognises (tab to carriage return, U+001C to U+001F, space).
- A missing `Company` value (NaN) makes line 24's `name.split()` raise `AttributeError`, so the script stops before `extract_vendor` runs. Company text is always a string here. `groupby` dropping NaN keys therefore never arises.
- `Ranking.NetByVendorSpec`: it fixes no order among vendors with equal net, because the sort pandas runs by default is not stable.
- `Ranking.SortByNet`: as above, the model's own tie order (a new entry before equal ones) is not part of its contract.
- `Analyzer.Analyze`: its `ensures` equates the result with `Analysis`, so `netByVendor` comes out in `SortByNet`'s order among equal nets (a new entry before equal ones). pandas promises no such order, so only the properties in `Ranking.NetByVendorSpec` describe `net_by_vendor` itself.
