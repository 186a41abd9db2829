/**
 * The tokenizer of `createAST`: one global regular expression
 *   (\(|\)|AND|OR|\w+\s*[><=]\s*[\w\d']+)
 * applied with `String.prototype.match`, which collects the leftmost,
 * non-overlapping matches from left to right.  The expression is modelled as
 * a hand-written scanner that tries the alternatives in the regex's own order.
 * Every repetition in the comparison alternative meets a character class that
 * is disjoint from the one that follows it, so the greedy quantifiers never
 * backtrack and each one takes a maximal run.
 */
module Lexer {
  import opened Wrappers

  datatype Connective = And | Or

  /** A lexical unit; a comparison such as `age > 30` stays one opaque token. */
  datatype Token = Open | Close | Conn(connective: Connective) | Cond(text: string)

  function ConnectiveName(c: Connective): string
  {
    match c
    case And => "AND"
    case Or => "OR"
  }

  /** The string the regex match yields for a token. */
  function Text(t: Token): string
  {
    match t
    case Open => "("
    case Close => ")"
    case Conn(c) => ConnectiveName(c)
    case Cond(text) => text
  }

  /** `\w` of JavaScript regular expressions (without the `u` flag). */
  predicate IsWordChar(c: char)
  {
    ('a' <= c <= 'z') || ('A' <= c <= 'Z') || ('0' <= c <= '9') || c == '_'
  }

  /** `\s`, restricted to the ASCII white-space characters. */
  predicate IsSpace(c: char)
  {
    c == ' ' || c == '\t' || c == '\n' || c == '\r' || c as int == 11 || c as int == 12
  }

  /** `[><=]` */
  predicate IsComparisonChar(c: char)
  {
    c == '>' || c == '<' || c == '='
  }

  /** `[\w\d']`, the value class of the tokenizer's comparison alternative. */
  predicate IsTokenValueChar(c: char)
  {
    IsWordChar(c) || c == '\''
  }

  /** The end of the maximal run of characters satisfying `p` that starts at `i`. */
  function RunEnd(s: string, i: nat, p: char -> bool): (j: nat)
    requires i <= |s|
    ensures i <= j <= |s|
    ensures j < |s| ==> !p(s[j])
    decreases |s| - i
  {
    if i < |s| && p(s[i]) then RunEnd(s, i + 1, p) else i
  }

  /** Every character of the run satisfies `p`. */
  lemma {:induction false} RunEndRun(s: string, i: nat, p: char -> bool)
    requires i <= |s|
    ensures forall k | i <= k < RunEnd(s, i, p) :: p(s[k])
    decreases |s| - i
  {
    if i < |s| && p(s[i]) {
      RunEndRun(s, i + 1, p);
    }
  }

  /**
   * The positions of a match of `\w+\s*[><=]\s*V+` at the start of a string:
   * the attribute is [0, attrEnd), the comparison symbol sits at opPos and
   * the value is [valueStart, end).
   */
  datatype Comparison = Comparison(attrEnd: nat, opPos: nat, valueStart: nat, end: nat)

  /**
   * `m` describes a match of the comparison pattern at the start of `s`, with
   * runs of any length the regex engine could try.
   */
  ghost predicate IsPatternMatch(s: string, m: Comparison, isValueChar: char -> bool)
  {
    && 0 < m.attrEnd <= m.opPos < m.valueStart < m.end <= |s|
    && (forall k | 0 <= k < m.attrEnd :: IsWordChar(s[k]))
    && (forall k | m.attrEnd <= k < m.opPos :: IsSpace(s[k]))
    && IsComparisonChar(s[m.opPos])
    && (forall k | m.opPos < k < m.valueStart :: IsSpace(s[k]))
    && (forall k | m.valueStart <= k < m.end :: isValueChar(s[k]))
  }

  /** The comparison pattern matches at the start of `s`. */
  ghost predicate PatternMatchesAt(s: string, isValueChar: char -> bool)
  {
    exists m :: IsPatternMatch(s, m, isValueChar)
  }

  /** A match of the pattern whose value run is maximal, as the greedy `+` takes it. */
  ghost predicate IsComparisonMatch(s: string, m: Comparison, isValueChar: char -> bool)
  {
    IsPatternMatch(s, m, isValueChar) && (m.end < |s| ==> !isValueChar(s[m.end]))
  }

  /**
   * Matches the comparison pattern at the start of `s`; the value class is a
   * parameter because the evaluator's pattern also admits `"`.
   */
  function ComparisonAt(s: string, isValueChar: char -> bool): Option<Comparison>
  {
    var attrEnd := RunEnd(s, 0, IsWordChar);
    var opPos := RunEnd(s, attrEnd, IsSpace);
    if attrEnd == 0 || opPos == |s| || !IsComparisonChar(s[opPos]) then None
    else
      var valueStart := RunEnd(s, opPos + 1, IsSpace);
      var end := RunEnd(s, valueStart, isValueChar);
      if end == valueStart then None
      else Some(Comparison(attrEnd, opPos, valueStart, end))
  }

  /** A match found by `ComparisonAt` is a match of the pattern, with maximal runs. */
  lemma ComparisonAtMatches(s: string, isValueChar: char -> bool)
    requires ComparisonAt(s, isValueChar).Some?
    ensures IsComparisonMatch(s, ComparisonAt(s, isValueChar).value, isValueChar)
  {
    var m := ComparisonAt(s, isValueChar).value;
    RunEndRun(s, 0, IsWordChar);
    RunEndRun(s, m.attrEnd, IsSpace);
    RunEndRun(s, m.opPos + 1, IsSpace);
    RunEndRun(s, m.valueStart, isValueChar);
  }

  /** A run of `p` from `i` covers at least every position up to `j` that satisfies `p` throughout. */
  lemma {:induction false} RunReaches(s: string, i: nat, j: nat, p: char -> bool)
    requires i <= j <= |s|
    requires forall k | i <= k < j :: p(s[k])
    ensures j <= RunEnd(s, i, p)
    decreases j - i
  {
    if i < j {
      RunReaches(s, i + 1, j, p);
    }
  }

  /** A run of `p` from `i` ends at `j` when `p` holds up to `j` and fails at `j`. */
  lemma RunStops(s: string, i: nat, j: nat, p: char -> bool)
    requires i <= j < |s|
    requires forall k | i <= k < j :: p(s[k])
    requires !p(s[j])
    ensures RunEnd(s, i, p) == j
  {
    RunReaches(s, i, j, p);
    RunEndRun(s, i, p);
  }

  /**
   * The converse of `ComparisonAtMatches`: when the pattern matches at the
   * start of `s` with any run lengths, the scanner finds a match, with the
   * same attribute, symbol and value start and a value run at least as long.
   * The value class must exclude white space, as both patterns' classes do.
   */
  lemma PatternFound(s: string, m: Comparison, q: char -> bool)
    requires forall c :: q(c) ==> !IsSpace(c)
    requires IsPatternMatch(s, m, q)
    ensures ComparisonAt(s, q).Some?
    ensures var r := ComparisonAt(s, q).value;
            r.attrEnd == m.attrEnd && r.opPos == m.opPos && r.valueStart == m.valueStart && m.end <= r.end
  {
    assert !IsWordChar(s[m.attrEnd]);
    RunStops(s, 0, m.attrEnd, IsWordChar);
    RunStops(s, m.attrEnd, m.opPos, IsSpace);
    assert q(s[m.valueStart]);
    RunStops(s, m.opPos + 1, m.valueStart, IsSpace);
    RunReaches(s, m.valueStart, m.end, q);
  }

  /** The scanner finds a comparison at the start of `s` exactly when the pattern matches there. */
  lemma ComparisonAtIffPattern(s: string, q: char -> bool)
    requires forall c :: q(c) ==> !IsSpace(c)
    ensures ComparisonAt(s, q).Some? <==> PatternMatchesAt(s, q)
  {
    if ComparisonAt(s, q).Some? {
      ComparisonAtMatches(s, q);
      assert IsPatternMatch(s, ComparisonAt(s, q).value, q);
    }
    if PatternMatchesAt(s, q) {
      var m :| IsPatternMatch(s, m, q);
      PatternFound(s, m, q);
    }
  }

  /** The runs that make up a match of the comparison pattern with value class `q`. */
  predicate IsComparisonRuns(s: string, m: Comparison, q: char -> bool)
  {
    && m.attrEnd == RunEnd(s, 0, IsWordChar) && m.attrEnd > 0
    && m.opPos == RunEnd(s, m.attrEnd, IsSpace) && m.opPos < |s| && IsComparisonChar(s[m.opPos])
    && m.valueStart == RunEnd(s, m.opPos + 1, IsSpace)
    && m.end == RunEnd(s, m.valueStart, q) && m.end > m.valueStart
  }

  lemma ComparisonAtIsRuns(s: string, q: char -> bool)
    requires ComparisonAt(s, q).Some?
    ensures IsComparisonRuns(s, ComparisonAt(s, q).value, q)
  {
  }

  lemma RunsAreComparisonAt(s: string, m: Comparison, q: char -> bool)
    requires IsComparisonRuns(s, m, q)
    ensures ComparisonAt(s, q) == Some(m)
  {
  }

  /** `s` begins with `w`. */
  predicate HasPrefix(s: string, w: string)
  {
    |w| <= |s| && s[..|w|] == w
  }

  /** A token and the length of the text it matched. */
  datatype Lexeme = Lexeme(token: Token, end: nat)

  /** The regex tried at the start of `s`, alternatives in their written order. */
  function MatchAt(s: string): (r: Option<Lexeme>)
    requires |s| > 0
    ensures r.Some? ==> 0 < r.value.end <= |s| && Text(r.value.token) == s[..r.value.end]
    ensures r.Some? && r.value.token.Cond? ==>
              ComparisonAt(s, IsTokenValueChar).Some? && ComparisonAt(s, IsTokenValueChar).value.end == r.value.end
  {
    if s[0] == '(' then Some(Lexeme(Open, 1))
    else if s[0] == ')' then Some(Lexeme(Close, 1))
    else if HasPrefix(s, "AND") then Some(Lexeme(Conn(And), 3))
    else if HasPrefix(s, "OR") then Some(Lexeme(Conn(Or), 2))
    else
      match ComparisonAt(s, IsTokenValueChar)
      case None => None
      case Some(m) => Some(Lexeme(Cond(s[..m.end]), m.end))
  }

  /**
   * All matches, left to right: a match resumes the scan where it ends, a
   * position where nothing matches is skipped.  The regex has no anchors, no
   * lookbehind and no word boundaries, so whether it matches at a position
   * depends only on the text from there on.
   */
  function Matches(s: string): seq<Token>
    decreases |s|
  {
    if s == [] then []
    else
      match MatchAt(s)
      case Some(lx) => [lx.token] + Matches(s[lx.end..])
      case None => Matches(s[1..])
  }

  datatype LexError = InvalidRuleString

  /** `ruleString.match(...)`, throwing "Invalid rule string" when it yields `null`. */
  function Tokenize(s: string): Result<seq<Token>, LexError>
  {
    var tokens := Matches(s);
    if tokens == [] then Err(InvalidRuleString) else Ok(tokens)
  }

  function TrimStart(s: string): string
  {
    if |s| > 0 && IsSpace(s[0]) then TrimStart(s[1..]) else s
  }

  function TrimEnd(s: string): string
  {
    if |s| > 0 && IsSpace(s[|s| - 1]) then TrimEnd(s[..|s| - 1]) else s
  }

  /** `String.prototype.trim`. */
  function Trim(s: string): string
  {
    TrimEnd(TrimStart(s))
  }

  // ---------------------------------------------------------------------
  // When the tokenizer fails
  // ---------------------------------------------------------------------

  lemma {:induction false} MatchesEmpty(s: string)
    ensures Matches(s) == [] <==> forall k | 0 <= k < |s| :: MatchAt(s[k..]).None?
    decreases |s|
  {
    if s != [] {
      MatchesEmpty(s[1..]);
      forall k | 1 <= k < |s|
        ensures s[k..] == s[1..][k - 1..]
      {
      }
      if MatchAt(s).None? {
        assert forall k | 0 <= k < |s[1..]| :: s[1..][k..] == s[k + 1..];
      } else {
        assert s[0..] == s;
      }
    }
  }

  /** Some alternative of `(\(|\)|AND|OR|\w+\s*[><=]\s*[\w\d']+)` matches at the start of `s`. */
  ghost predicate RegexMatchesAt(s: string)
  {
    && |s| > 0
    && (s[0] == '(' || s[0] == ')' || HasPrefix(s, "AND") || HasPrefix(s, "OR")
        || PatternMatchesAt(s, IsTokenValueChar))
  }

  /** The scanner finds a token at the start of `s` exactly when the regex matches there. */
  lemma MatchAtIffRegex(s: string)
    requires |s| > 0
    ensures MatchAt(s).Some? <==> RegexMatchesAt(s)
  {
    ComparisonAtIffPattern(s, IsTokenValueChar);
  }

  /** The rule string is rejected exactly when the regex matches at no position at all. */
  lemma TokenizeFailsIffNoMatch(s: string)
    ensures Tokenize(s).Err? <==> forall k | 0 <= k < |s| :: MatchAt(s[k..]).None?
    ensures Tokenize(s).Err? <==> forall k | 0 <= k < |s| :: !RegexMatchesAt(s[k..])
  {
    MatchesEmpty(s);
    forall k | 0 <= k < |s|
      ensures MatchAt(s[k..]).None? <==> !RegexMatchesAt(s[k..])
    {
      MatchAtIffRegex(s[k..]);
    }
  }

  // ---------------------------------------------------------------------
  // A comparison token is one whole comparison
  // ---------------------------------------------------------------------

  /** Cutting a string at `n` cuts every run at `n`. */
  lemma {:induction false} RunEndPrefix(s: string, n: nat, k: nat, p: char -> bool)
    requires k <= n <= |s|
    ensures RunEnd(s[..n], k, p) == if RunEnd(s, k, p) < n then RunEnd(s, k, p) else n
    decreases n - k
  {
    if k < n {
      assert s[..n][k] == s[k];
      if p(s[k]) {
        RunEndPrefix(s, n, k + 1, p);
      }
    }
  }

  lemma {:induction false} RunEndAll(s: string, k: nat, p: char -> bool)
    requires k <= |s|
    requires forall m | k <= m < |s| :: p(s[m])
    ensures RunEnd(s, k, p) == |s|
    decreases |s| - k
  {
    if k < |s| {
      RunEndAll(s, k + 1, p);
    }
  }

  lemma TrimNoEdgeSpace(s: string)
    requires |s| > 0 && !IsSpace(s[0]) && !IsSpace(s[|s| - 1])
    ensures Trim(s) == s
  {
  }

  /** The value run of the tokenizer's match, read with any wider value class, reaches the end of the cut text. */
  lemma ValueRunInPrefix(s: string, k: nat, j: nat, q: char -> bool)
    requires k <= j <= |s|
    requires forall c :: IsTokenValueChar(c) ==> q(c)
    requires j == RunEnd(s, k, IsTokenValueChar)
    ensures RunEnd(s[..j], k, q) == j
  {
    RunEndRun(s, k, IsTokenValueChar);
    var t := s[..j];
    forall m | k <= m < |t|
      ensures q(t[m])
    {
      assert t[m] == s[m];
    }
    RunEndAll(t, k, q);
  }

  /** The comparison matched at the start of `s`, cut out, matches again, whole. */
  lemma ComparisonInPrefix(s: string, m: Comparison, q: char -> bool)
    requires IsComparisonRuns(s, m, IsTokenValueChar)
    requires forall c :: IsTokenValueChar(c) ==> q(c)
    ensures ComparisonAt(s[..m.end], q) == Some(m)
  {
    var t := s[..m.end];
    RunEndPrefix(s, m.end, 0, IsWordChar);
    RunEndPrefix(s, m.end, m.attrEnd, IsSpace);
    assert t[m.opPos] == s[m.opPos];
    RunEndPrefix(s, m.end, m.opPos + 1, IsSpace);
    ValueRunInPrefix(s, m.valueStart, m.end, q);
    RunsAreComparisonAt(t, m, q);
  }

  /**
   * A comparison token is one whole comparison: read again on its own with
   * any value class `q` that contains the tokenizer's, the comparison pattern
   * matches at its first character and spans all of it, and trimming leaves
   * it unchanged.
   */
  lemma CondTokenIsOneComparison(s: string, q: char -> bool)
    requires |s| > 0 && MatchAt(s).Some? && MatchAt(s).value.token.Cond?
    requires forall c :: IsTokenValueChar(c) ==> q(c)
    ensures var t := MatchAt(s).value.token.text;
            && Trim(t) == t
            && ComparisonAt(t, q).Some?
            && ComparisonAt(t, q).value.end == |t|
  {
    var m := ComparisonAt(s, IsTokenValueChar).value;
    ComparisonAtIsRuns(s, IsTokenValueChar);
    var t := s[..m.end];
    assert MatchAt(s).value.token.text == t;
    RunEndRun(s, m.valueStart, IsTokenValueChar);
    assert t[0] == s[0] && t[|t| - 1] == s[m.end - 1];
    TrimNoEdgeSpace(t);
    ComparisonInPrefix(s, m, q);
  }

  lemma {:induction false} MatchesConds(s: string)
    ensures forall t | t in Matches(s) && t.Cond? ::
              exists k | 0 <= k < |s| :: MatchAt(s[k..]).Some? && MatchAt(s[k..]).value.token == t
    decreases |s|
  {
    if s != [] {
      assert s[0..] == s;
      match MatchAt(s)
      case Some(lx) =>
        MatchesConds(s[lx.end..]);
        forall k | 0 <= k < |s[lx.end..]|
          ensures s[lx.end..][k..] == s[lx.end + k..]
        {
        }
      case None =>
        MatchesConds(s[1..]);
        forall k | 0 <= k < |s[1..]|
          ensures s[1..][k..] == s[1 + k..]
        {
        }
    }
  }

  /** Every comparison token the tokenizer yields is trimmed and is one complete comparison. */
  lemma TokenizedConditionsAreComparisons(s: string, q: char -> bool)
    requires Tokenize(s).Ok?
    requires forall c :: IsTokenValueChar(c) ==> q(c)
    ensures forall t | t in Tokenize(s).value && t.Cond? ::
              Trim(t.text) == t.text && ComparisonAt(t.text, q).Some? && ComparisonAt(t.text, q).value.end == |t.text|
  {
    MatchesConds(s);
    forall t | t in Tokenize(s).value && t.Cond?
      ensures Trim(t.text) == t.text && ComparisonAt(t.text, q).Some? && ComparisonAt(t.text, q).value.end == |t.text|
    {
      var k :| 0 <= k < |s| && MatchAt(s[k..]).Some? && MatchAt(s[k..]).value.token == t;
      CondTokenIsOneComparison(s[k..], q);
    }
  }

  // ---------------------------------------------------------------------
  // Round trip: writing tokens out, with white space, and reading them back
  // ---------------------------------------------------------------------

  /**
   * A comparison text the tokenizer reads back as one token: the whole text
   * is one comparison, and it does not begin with `AND` or `OR` (the regex
   * tries those alternatives first, with no word boundary).
   */
  predicate WellFormedCond(text: string)
  {
    && ComparisonAt(text, IsTokenValueChar).Some?
    && ComparisonAt(text, IsTokenValueChar).value.end == |text|
    && !HasPrefix(text, "AND")
    && !HasPrefix(text, "OR")
  }

  predicate WellFormedTokens(ts: seq<Token>)
  {
    forall k | 0 <= k < |ts| :: ts[k].Cond? ==> WellFormedCond(ts[k].text)
  }

  /** A well-formed comparison text starts with a word character and ends with a value character, so `trim()` keeps it. */
  lemma WellFormedCondTrimmed(text: string)
    requires WellFormedCond(text)
    ensures Trim(text) == text
  {
    var m := ComparisonAt(text, IsTokenValueChar).value;
    RunEndRun(text, 0, IsWordChar);
    RunEndRun(text, m.valueStart, IsTokenValueChar);
    assert IsWordChar(text[0]) && IsTokenValueChar(text[|text| - 1]);
    TrimNoEdgeSpace(text);
  }

  /** A stretch of white space, possibly empty. */
  predicate IsBlank(g: string)
  {
    forall k | 0 <= k < |g| :: IsSpace(g[k])
  }

  /**
   * The tokens written out with the white space `gaps[k]` before token `k`
   * and `gaps[|ts|]` after the last one.
   */
  function Layout(ts: seq<Token>, gaps: seq<string>): string
    requires |gaps| == |ts| + 1
    decreases ts
  {
    if ts == [] then gaps[0] else gaps[0] + Text(ts[0]) + Layout(ts[1..], gaps[1..])
  }

  /** Writing out one more token in front. */
  lemma LayoutCons(t: Token, ts: seq<Token>, g: string, gaps: seq<string>)
    requires |gaps| == |ts| + 1
    ensures Layout([t] + ts, [g] + gaps) == g + Text(t) + Layout(ts, gaps)
  {
    assert ([t] + ts)[1..] == ts && ([g] + gaps)[1..] == gaps;
  }

  /**
   * A comparison runs into a following connective or comparison unless white
   * space separates them: its value run would take their letters.  A
   * parenthesis, or a connective, ends by itself.
   */
  predicate NeedsGap(before: Token, after: Token)
  {
    before.Cond? && (after.Conn? || after.Cond?)
  }

  /** White space the tokenizer reads through and that keeps every token apart. */
  predicate Separates(ts: seq<Token>, gaps: seq<string>)
  {
    && |gaps| == |ts| + 1
    && (forall k | 0 <= k < |gaps| :: IsBlank(gaps[k]))
    && (forall k | 1 <= k < |ts| :: NeedsGap(ts[k - 1], ts[k]) ==> gaps[k] != [])
  }

  /** No white space at either end, one space between tokens. */
  function SingleSpaces(n: nat): (gaps: seq<string>)
    ensures |gaps| == n + 1
  {
    if n == 0 then [""] else [""] + seq(n - 1, _ => " ") + [""]
  }

  /** The tokens written out with one space between each two of them. */
  function Render(ts: seq<Token>): string
  {
    Layout(ts, SingleSpaces(|ts|))
  }

  lemma SingleSpacesSeparate(ts: seq<Token>)
    ensures Separates(ts, SingleSpaces(|ts|))
  {
    var gaps := SingleSpaces(|ts|);
    forall k | 0 <= k < |gaps|
      ensures IsBlank(gaps[k])
    {
      assert gaps[k] == "" || gaps[k] == " ";
    }
    forall k | 1 <= k < |ts|
      ensures gaps[k] == " "
    {
    }
  }

  /** A run that starts inside `a` continues into `b` only when it reaches the end of `a`. */
  lemma {:induction false} RunEndConcat(a: string, b: string, k: nat, p: char -> bool)
    requires k <= |a|
    ensures RunEnd(a + b, k, p) == if RunEnd(a, k, p) < |a| then RunEnd(a, k, p) else |a| + RunEnd(b, 0, p)
    decreases |a| - k
  {
    if k < |a| {
      assert (a + b)[k] == a[k];
      if p(a[k]) {
        RunEndConcat(a, b, k + 1, p);
      }
    } else {
      RunEndShift(a, b, 0, p);
    }
  }

  lemma {:induction false} RunEndShift(a: string, b: string, k: nat, p: char -> bool)
    requires k <= |b|
    ensures RunEnd(a + b, |a| + k, p) == |a| + RunEnd(b, k, p)
    decreases |b| - k
  {
    if k < |b| {
      assert (a + b)[|a| + k] == b[k];
      if p(b[k]) {
        RunEndShift(a, b, k + 1, p);
      }
    }
  }

  /** Text that cannot continue the value run of a comparison written before it. */
  predicate EndsValue(rest: string)
  {
    rest == [] || !IsTokenValueChar(rest[0])
  }

  /** A well-formed comparison text followed by text that ends its value is matched whole. */
  lemma MatchCondBefore(text: string, rest: string)
    requires WellFormedCond(text) && EndsValue(rest)
    ensures MatchAt(text + rest) == Some(Lexeme(Cond(text), |text|))
  {
    var s := text + rest;
    var m := ComparisonAt(text, IsTokenValueChar).value;
    ComparisonAtIsRuns(text, IsTokenValueChar);
    NoConnectivePrefix(text, rest);
    ComparisonRunsBefore(text, rest, m);
    assert s[..m.end] == text;
  }

  lemma NoConnectivePrefix(text: string, rest: string)
    requires |text| > 0 && !HasPrefix(text, "AND") && !HasPrefix(text, "OR")
    requires ComparisonAt(text, IsTokenValueChar).Some?
    ensures var s := text + rest; s[0] == text[0] && !HasPrefix(s, "AND") && !HasPrefix(s, "OR")
  {
    var s := text + rest;
    var m := ComparisonAt(text, IsTokenValueChar).value;
    ComparisonAtIsRuns(text, IsTokenValueChar);
    assert |text| >= 3;
    assert s[..3] == text[..3] && s[..2] == text[..2];
  }

  lemma ComparisonRunsBefore(text: string, rest: string, m: Comparison)
    requires IsComparisonRuns(text, m, IsTokenValueChar) && m.end == |text|
    requires EndsValue(rest)
    ensures ComparisonAt(text + rest, IsTokenValueChar) == Some(m)
  {
    var s := text + rest;
    RunEndConcat(text, rest, 0, IsWordChar);
    RunEndConcat(text, rest, m.attrEnd, IsSpace);
    assert s[m.opPos] == text[m.opPos];
    RunEndConcat(text, rest, m.opPos + 1, IsSpace);
    RunEndConcat(text, rest, m.valueStart, IsTokenValueChar);
    RunsAreComparisonAt(s, m, IsTokenValueChar);
  }

  /** The token at the head of written-out text is matched whole. */
  lemma MatchToken(t: Token, rest: string)
    requires t.Cond? ==> WellFormedCond(t.text) && EndsValue(rest)
    ensures MatchAt(Text(t) + rest) == Some(Lexeme(t, |Text(t)|))
  {
    var s := Text(t) + rest;
    match t
    case Cond(text) =>
      MatchCondBefore(text, rest);
    case Conn(c) =>
      assert s[..|Text(t)|] == Text(t);
    case _ =>
      assert s[0] == Text(t)[0];
  }

  /** Reading one written-out token. */
  lemma MatchesToken(t: Token, rest: string)
    requires t.Cond? ==> WellFormedCond(t.text) && EndsValue(rest)
    ensures Matches(Text(t) + rest) == [t] + Matches(rest)
  {
    MatchToken(t, rest);
    assert (Text(t) + rest)[|Text(t)|..] == rest;
  }

  /** White space matches no alternative, so the scan skips it. */
  lemma {:induction false} MatchesBlank(g: string, rest: string)
    requires IsBlank(g)
    ensures Matches(g + rest) == Matches(rest)
    decreases |g|
  {
    if g != [] {
      var s := g + rest;
      assert s[0] == g[0] && IsSpace(g[0]);
      assert !HasPrefix(s, "AND") && !HasPrefix(s, "OR") by {
        if |s| >= 2 {
          assert s[..2][0] == s[0];
        }
        if |s| >= 3 {
          assert s[..3][0] == s[0];
        }
      }
      assert RunEnd(s, 0, IsWordChar) == 0;
      assert MatchAt(s).None?;
      assert Matches(s) == Matches(s[1..]);
      assert s[1..] == g[1..] + rest;
      MatchesBlank(g[1..], rest);
    } else {
      assert g + rest == rest;
    }
  }

  /** Written-out text after a gap that a comparison needs starts with a character outside its value class. */
  lemma LayoutEndsValue(ts: seq<Token>, gaps: seq<string>)
    requires |gaps| == |ts| + 1 && IsBlank(gaps[0])
    requires gaps[0] == [] && ts != [] ==> ts[0].Open? || ts[0].Close?
    ensures EndsValue(Layout(ts, gaps))
  {
    if gaps[0] != [] {
      assert Layout(ts, gaps)[0] == gaps[0][0];
    } else if ts != [] {
      assert Layout(ts, gaps)[0] == Text(ts[0])[0];
    }
  }

  /** The layout conditions hold for the tokens after the first and their gaps. */
  lemma SeparatesTail(ts: seq<Token>, gaps: seq<string>)
    requires ts != [] && WellFormedTokens(ts) && Separates(ts, gaps)
    ensures WellFormedTokens(ts[1..]) && Separates(ts[1..], gaps[1..])
  {
    forall k | 0 <= k < |ts[1..]|
      ensures ts[1..][k] == ts[k + 1]
    {
    }
    forall k | 0 <= k < |gaps[1..]|
      ensures gaps[1..][k] == gaps[k + 1]
    {
    }
  }

  /** Reading the first gap and the first token of a layout. */
  lemma MatchesLayoutHead(ts: seq<Token>, gaps: seq<string>)
    requires ts != [] && WellFormedTokens(ts) && Separates(ts, gaps)
    ensures Matches(Layout(ts, gaps)) == [ts[0]] + Matches(Layout(ts[1..], gaps[1..]))
  {
    var rest := Layout(ts[1..], gaps[1..]);
    assert gaps[0] + Text(ts[0]) + rest == gaps[0] + (Text(ts[0]) + rest);
    assert IsBlank(gaps[0]) && IsBlank(gaps[1]);
    MatchesBlank(gaps[0], Text(ts[0]) + rest);
    if ts[0].Cond? {
      assert WellFormedCond(ts[0].text);
      assert |ts| > 1 ==> NeedsGap(ts[0], ts[1]) ==> gaps[1] != [];
      LayoutEndsValue(ts[1..], gaps[1..]);
    }
    MatchesToken(ts[0], rest);
  }

  lemma {:induction false} MatchesLayout(ts: seq<Token>, gaps: seq<string>)
    requires WellFormedTokens(ts) && Separates(ts, gaps)
    ensures Matches(Layout(ts, gaps)) == ts
    decreases ts
  {
    if ts == [] {
      assert gaps[0] == gaps[0] + [];
      assert IsBlank(gaps[0]);
      MatchesBlank(gaps[0], []);
    } else {
      MatchesLayoutHead(ts, gaps);
      SeparatesTail(ts, gaps);
      MatchesLayout(ts[1..], gaps[1..]);
      assert [ts[0]] + ts[1..] == ts;
    }
  }

  /**
   * Tokenizing well-formed tokens written out with any white space the
   * tokenizer reads through gives the tokens back.
   */
  lemma TokenizeLayout(ts: seq<Token>, gaps: seq<string>)
    requires ts != [] && WellFormedTokens(ts) && Separates(ts, gaps)
    ensures Tokenize(Layout(ts, gaps)) == Ok(ts)
  {
    MatchesLayout(ts, gaps);
  }

  /** The same for one space between each two tokens. */
  lemma TokenizeRender(ts: seq<Token>)
    requires ts != [] && WellFormedTokens(ts)
    ensures Tokenize(Render(ts)) == Ok(ts)
  {
    SingleSpacesSeparate(ts);
    TokenizeLayout(ts, SingleSpaces(|ts|));
  }

  /**
   * The regex has no word boundary, so an attribute whose name begins with
   * `OR` (or `AND`) loses that prefix to a connective token.
   */
  lemma ConnectivePrefixSplitsAttribute()
    ensures Tokenize("ORDER>5") == Ok([Conn(Or), Cond("DER>5")])
  {
    var s := "ORDER>5";
    assert s[..2] == "OR";
    assert MatchAt(s) == Some(Lexeme(Conn(Or), 2));
    var d := s[2..];
    assert d == "DER>5";
    assert RunEnd(d, 3, IsWordChar) == 3;
    assert RunEnd(d, 2, IsWordChar) == 3;
    assert RunEnd(d, 1, IsWordChar) == 3;
    assert RunEnd(d, 0, IsWordChar) == 3;
    assert RunEnd(d, 3, IsSpace) == 3;
    assert RunEnd(d, 4, IsSpace) == 4;
    assert RunEnd(d, 5, IsTokenValueChar) == 5;
    assert RunEnd(d, 4, IsTokenValueChar) == 5;
    RunsAreComparisonAt(d, Comparison(3, 3, 4, 5), IsTokenValueChar);
    assert d[..5] == d;
    assert !HasPrefix(d, "AND") && !HasPrefix(d, "OR");
    assert MatchAt(d) == Some(Lexeme(Cond("DER>5"), 5));
    assert Matches(d[5..]) == [];
    assert Matches(d) == [Cond("DER>5")];
    assert Matches(s) == [Conn(Or)] + Matches(d);
    assert Matches(s) == [Conn(Or), Cond("DER>5")];
  }
}
