/** The eraser of SQL literals and comments (src/plaik_core/migrations.py): strings, quoted
    identifiers, comments and dollar quotes are overwritten with spaces, in place. */
module SqlErasers {
  import opened Prelude

  datatype Unterminated = Comment | Quote | Identifier | DollarQuote

  /** What starts at one position: an ordinary character, a span to erase, or a span that never ends. */
  datatype Token = Plain | Span(end: nat) | Open(kind: Unterminated)

  predicate At(s: string, i: nat, text: string) {
    i + |text| <= |s| && s[i..i + |text|] == text
  }

  /** `str.find` from a position. */
  function Find(s: string, text: string, from: nat): (r: Option<nat>)
    ensures r.Some? ==> from <= r.value && At(s, r.value, text) && forall k :: from <= k < r.value ==> !At(s, k, text)
    ensures r.None? ==> forall k :: from <= k <= |s| ==> !At(s, k, text)
    decreases |s| - from
  {
    if from > |s| then None
    else if At(s, from, text) then Some(from)
    else if from == |s| then None
    else Find(s, text, from + 1)
  }

  predicate IsLetter(c: char) {
    'A' <= c <= 'Z' || 'a' <= c <= 'z' || c == '_'
  }

  predicate IsWord(c: char) {
    IsLetter(c) || '0' <= c <= '9'
  }

  /** The end of a run of word characters. */
  function WordEnd(s: string, i: nat): (end: nat)
    requires i <= |s|
    ensures i <= end <= |s| && (forall k :: i <= k < end ==> IsWord(s[k])) && (end < |s| ==> !IsWord(s[end]))
    decreases |s| - i
  {
    if i == |s| || !IsWord(s[i]) then i else WordEnd(s, i + 1)
  }

  /** `$tag$` or `$$` at a position. */
  function DollarTag(s: string, i: nat): (end: Option<nat>)
    requires i < |s|
    ensures end.Some? ==> i + 2 <= end.value <= |s| && s[i] == '$' && s[end.value - 1] == '$'
    ensures end.Some? ==> forall k :: i < k < end.value - 1 ==> IsWord(s[k])
  {
    if s[i] != '$' || i + 1 == |s| then None
    else if s[i + 1] == '$' then Some(i + 2)
    else if !IsLetter(s[i + 1]) then None
    else
      var end := WordEnd(s, i + 2);
      if end < |s| && s[end] == '$' then Some(end + 1) else None
  }

  /** The end of a nested block comment that is `depth` levels deep. */
  function CommentEnd(s: string, i: nat, depth: nat): (end: Option<nat>)
    requires i <= |s|
    ensures end.Some? ==> i <= end.value <= |s|
    decreases |s| - i
  {
    if depth == 0 then Some(i)
    else if i == |s| then None
    else if At(s, i, "/*") then CommentEnd(s, i + 2, depth + 1)
    else if At(s, i, "*/") then CommentEnd(s, i + 2, depth - 1)
    else CommentEnd(s, i + 1, depth)
  }

  /** The end of a quoted text: a doubled quote and a backslash escape do not end it. */
  function QuoteEnd(s: string, i: nat, quote: char): (end: Option<nat>)
    requires i <= |s|
    ensures end.Some? ==> i < end.value <= |s| && s[end.value - 1] == quote
    decreases |s| - i
  {
    if i == |s| then None
    else if s[i] == quote then if i + 1 < |s| && s[i + 1] == quote then QuoteEnd(s, i + 2, quote) else Some(i + 1)
    else if s[i] == '\\' && i + 1 < |s| then QuoteEnd(s, i + 2, quote)
    else QuoteEnd(s, i + 1, quote)
  }

  predicate IsQuote(c: char) {
    c == '\'' || c == '"' || c == '`'
  }

  /** Something to erase starts here. */
  predicate Opener(s: string, i: nat)
    requires i < |s|
  {
    At(s, i, "--") || At(s, i, "/*") || IsQuote(s[i]) || s[i] == '[' || DollarTag(s, i).Some?
  }

  function SpanTo(end: Option<nat>, kind: Unterminated): Token {
    if end.Some? then Span(end.value) else Open(kind)
  }

  function TokenAt(s: string, i: nat): (t: Token)
    requires i < |s|
    ensures t.Plain? <==> !Opener(s, i)
    ensures t.Span? ==> i < t.end <= |s|
  {
    if At(s, i, "--") then
      var newline := Find(s, "\n", i + 2);
      Span(if newline.Some? then newline.value else |s|)
    else if At(s, i, "/*") then SpanTo(CommentEnd(s, i + 2, 1), Comment)
    else if IsQuote(s[i]) then SpanTo(QuoteEnd(s, i + 1, s[i]), Quote)
    else if s[i] == '[' then
      var close := Find(s, "]", i + 1);
      if close.Some? then Span(close.value + 1) else Open(Identifier)
    else
      var tag := DollarTag(s, i);
      if tag.None? then Plain
      else
        var close := Find(s, s[i..tag.value], tag.value);
        if close.Some? then Span(close.value + (tag.value - i)) else Open(DollarQuote)
  }

  function Spaces(n: nat): (r: string)
    ensures |r| == n && forall k :: 0 <= k < n ==> r[k] == ' '
  {
    if n == 0 then "" else " " + Spaces(n - 1)
  }

  /** The erased text from a position on, read from left to right. */
  function ErasedFrom(s: string, i: nat): (r: Result<string, Unterminated>)
    requires i <= |s|
    decreases |s| - i
  {
    if i == |s| then Success("")
    else match TokenAt(s, i)
      case Plain =>
        var rest := ErasedFrom(s, i + 1);
        if rest.Success? then Success([s[i]] + rest.value) else rest
      case Span(end) =>
        var rest := ErasedFrom(s, end);
        if rest.Success? then Success(Spaces(end - i) + rest.value) else rest
      case Open(kind) => Failure(kind)
  }

  function Erased(s: string): Result<string, Unterminated> {
    ErasedFrom(s, 0)
  }

  // ---------------------------------------------------------------------------------------
  // Erasing is a projection
  // ---------------------------------------------------------------------------------------

  /** Erasing keeps the length and changes characters only to spaces, and every character that
      survives was an ordinary one. */
  lemma {:induction false} ErasedKeeps(s: string, i: nat, k: nat)
    requires i <= |s| && ErasedFrom(s, i).Success?
    ensures var r := ErasedFrom(s, i).value;
            && |r| == |s| - i
            && (k < |r| ==> r[k] == s[i + k] || r[k] == ' ')
            && (k < |r| && r[k] != ' ' ==> TokenAt(s, i + k) == Plain)
    decreases |s| - i
  {
    hide TokenAt;
    if i < |s| {
      match TokenAt(s, i)
      case Plain =>
        ErasedKeeps(s, i + 1, if k > 0 then k - 1 else 0);
      case Span(end) =>
        ErasedKeeps(s, end, if k >= end - i then k - (end - i) else 0);
      case Open(_) =>
    }
  }

  /** `u` is `s` with some characters overwritten by spaces. */
  ghost predicate Blanked(s: string, u: string) {
    |u| == |s| && forall k :: 0 <= k < |s| ==> u[k] == s[k] || u[k] == ' '
  }

  lemma {:induction false} BlankedWord(s: string, u: string, i: nat)
    requires Blanked(s, u) && i <= |s| && WordEnd(u, i) < |u| && u[WordEnd(u, i)] == '$'
    ensures WordEnd(s, i) == WordEnd(u, i)
    decreases |s| - i
  {
    if i < |u| && IsWord(u[i]) {
      assert u[i] == s[i];
      BlankedWord(s, u, i + 1);
    }
  }

  /** Blanking never creates an opener. */
  lemma BlankedOpener(s: string, u: string, i: nat)
    requires Blanked(s, u) && i < |s| && Opener(u, i)
    ensures Opener(s, i)
  {
    if i + 1 < |s| {
      assert u[i..i + 2] == [u[i], u[i + 1]] && s[i..i + 2] == [s[i], s[i + 1]];
    }
    if DollarTag(u, i).Some? && u[i + 1] != '$' {
      BlankedWord(s, u, i + 2);
    }
  }

  lemma ErasedIsBlanked(s: string)
    requires Erased(s).Success?
    ensures Blanked(s, Erased(s).value)
  {
    hide TokenAt, ErasedFrom;
    var u := Erased(s).value;
    ErasedKeeps(s, 0, 0);
    forall k | 0 <= k < |s| ensures u[k] == s[k] || u[k] == ' ' {
      ErasedKeeps(s, 0, k);
    }
  }

  lemma SpaceOpensNothing(u: string, k: nat)
    requires k < |u| && u[k] == ' '
    ensures !Opener(u, k)
  {
    if k + 1 < |u| {
      assert u[k..k + 2][0] == ' ';
    }
  }

  /** No quote, bracket, comment or dollar-quote opener is left. */
  lemma NothingLeft(s: string, k: nat)
    requires Erased(s).Success? && k < |s|
    ensures |Erased(s).value| == |s| && !Opener(Erased(s).value, k)
  {
    hide Opener, ErasedFrom;
    var u := Erased(s).value;
    ErasedIsBlanked(s);
    ErasedKeeps(s, 0, k);
    if u[k] == ' ' {
      SpaceOpensNothing(u, k);
    } else if Opener(u, k) {
      BlankedOpener(s, u, k);
    }
  }

  lemma {:induction false} PlainStays(u: string, i: nat)
    requires i <= |u| && forall k :: 0 <= k < |u| ==> !Opener(u, k)
    ensures ErasedFrom(u, i) == Success(u[i..])
    decreases |u| - i
  {
    if i < |u| {
      PlainStays(u, i + 1);
      assert u[i..] == [u[i]] + u[i + 1..];
    }
  }

  /** Erasing twice is erasing once. */
  lemma ErasingIsIdempotent(s: string)
    requires Erased(s).Success?
    ensures Erased(Erased(s).value) == Erased(s)
  {
    var u := Erased(s).value;
    ErasedKeeps(s, 0, 0);
    forall k | 0 <= k < |u| ensures !Opener(u, k) {
      NothingLeft(s, k);
    }
    PlainStays(u, 0);
    assert u[0..] == u;
  }

  /** A text with nothing to erase is returned as it is, and only such a text is. */
  lemma UnchangedExactly(s: string)
    ensures Erased(s) == Success(s) <==> forall k :: 0 <= k < |s| ==> !Opener(s, k)
  {
    if Erased(s) == Success(s) {
      forall k | 0 <= k < |s| ensures !Opener(s, k) {
        NothingLeft(s, k);
      }
    }
    if forall k :: 0 <= k < |s| ==> !Opener(s, k) {
      PlainStays(s, 0);
      assert s[0..] == s;
    }
  }

  // ---------------------------------------------------------------------------------------
  // Where comments and quotes end
  // ---------------------------------------------------------------------------------------

  predicate IsMark(s: string, p: nat) {
    At(s, p, "/*") || At(s, p, "*/")
  }

  /** No comment mark starts in [from, to). */
  predicate Markless(s: string, from: nat, to: nat) {
    forall p :: from <= p < to ==> !IsMark(s, p)
  }

  /** The k-th mark is the next one after the mark before it, or after `from`. */
  predicate MarkAt(s: string, from: nat, marks: seq<nat>, k: nat)
    requires k < |marks|
  {
    var after := if k == 0 then from else marks[k - 1] + 2;
    IsMark(s, marks[k]) && after <= marks[k] && Markless(s, after, marks[k])
  }

  /** `marks` are the comment marks met from left to right, none overlooked between them. */
  predicate MarksFrom(s: string, from: nat, marks: seq<nat>) {
    forall k :: 0 <= k < |marks| ==> MarkAt(s, from, marks, k)
  }

  /** How many of the first `k` marks open, less how many close. */
  function Nesting(s: string, marks: seq<nat>, k: nat): int
    requires k <= |marks|
  {
    if k == 0 then 0 else Nesting(s, marks, k - 1) + if At(s, marks[k - 1], "/*") then 1 else -1
  }

  /** The openers and closers up to `end` balance for the first time. */
  predicate Balances(s: string, from: nat, depth: nat, marks: seq<nat>, end: nat) {
    && MarksFrom(s, from, marks) && marks != [] && end == marks[|marks| - 1] + 2
    && depth + Nesting(s, marks, |marks|) == 0
    && forall k :: 0 <= k < |marks| ==> depth + Nesting(s, marks, k) > 0
  }

  lemma {:induction false} NestingTail(s: string, first: nat, rest: seq<nat>, k: nat)
    requires k <= |rest|
    ensures Nesting(s, [first] + rest, k + 1) == (if At(s, first, "/*") then 1 else -1) + Nesting(s, rest, k)
  {
    if k > 0 {
      NestingTail(s, first, rest, k - 1);
    }
  }

  lemma MarksStep(s: string, from: nat, first: nat, rest: seq<nat>)
    requires from <= first && Markless(s, from, first) && IsMark(s, first)
    ensures MarksFrom(s, from, [first] + rest) <==> MarksFrom(s, first + 2, rest)
  {
    var marks, next := [first] + rest, first + 2;
    forall k | 0 <= k < |rest| ensures MarkAt(s, next, rest, k) <==> MarkAt(s, from, marks, k + 1) {
      assert marks[k + 1] == rest[k] && marks[k] == if k == 0 then first else rest[k - 1];
    }
    if MarksFrom(s, first + 2, rest) {
      forall k | 0 <= k < |marks| ensures MarkAt(s, from, marks, k) {
        assert k > 0 ==> MarkAt(s, next, rest, k - 1);
      }
    }
    if MarksFrom(s, from, marks) {
      forall k | 0 <= k < |rest| ensures MarkAt(s, next, rest, k) {
        assert MarkAt(s, from, marks, k + 1);
      }
    }
  }

  /** A mark in front of balanced marks, and the way back. */
  lemma BalancesStep(s: string, from: nat, depth: nat, first: nat, rest: seq<nat>, end: nat)
    requires from <= first && Markless(s, from, first) && IsMark(s, first) && depth >= 1
    ensures var inner := if At(s, first, "/*") then depth + 1 else depth - 1;
            Balances(s, from, depth, [first] + rest, end) <==>
            if inner == 0 then rest == [] && end == first + 2 else Balances(s, first + 2, inner, rest, end)
  {
    hide MarksFrom;
    var marks := [first] + rest;
    var inner := if At(s, first, "/*") then depth + 1 else depth - 1;
    MarksStep(s, from, first, rest);
    NoMarks(s, first + 2);
    forall k | 0 <= k <= |rest| ensures depth + Nesting(s, marks, k + 1) == inner + Nesting(s, rest, k) {
      NestingTail(s, first, rest, k);
    }
    if Balances(s, from, depth, marks, end) {
      forall k | 0 <= k < |rest| ensures inner + Nesting(s, rest, k) > 0 {
        assert depth + Nesting(s, marks, k + 1) > 0;
      }
      if rest == [] {
        assert inner + Nesting(s, rest, 0) == 0;
      } else {
        assert inner + Nesting(s, rest, 0) > 0;
      }
    }
    if inner > 0 && Balances(s, first + 2, inner, rest, end) {
      forall k | 0 <= k < |marks| ensures depth + Nesting(s, marks, k) > 0 {
        assert k > 0 ==> inner + Nesting(s, rest, k - 1) > 0;
      }
    }
    if inner == 0 && rest == [] {
      assert depth + Nesting(s, marks, 1) == 0;
    }
  }

  lemma NoMarks(s: string, from: nat)
    ensures MarksFrom(s, from, [])
  {
  }

  /** A comment ends exactly where its openers and closers first balance, whatever the nesting. */
  lemma {:induction false} CommentEndExactly(s: string, i: nat, from: nat, depth: nat, end: nat)
    requires i <= from <= |s| && depth >= 1 && Markless(s, i, from)
    ensures CommentEnd(s, from, depth) == Some(end) <==> exists marks :: Balances(s, i, depth, marks, end)
    decreases |s| - from
  {
    if from == |s| {
      if marks :| Balances(s, i, depth, marks, end) {
        assert MarkAt(s, i, marks, 0);
        assert IsMark(s, marks[0]);
      }
    } else if !IsMark(s, from) {
      CommentEndExactly(s, i, from + 1, depth, end);
    } else {
      CommentEndAtMark(s, i, from, depth, end);
    }
  }

  lemma {:induction false} CommentEndAtMark(s: string, i: nat, first: nat, depth: nat, end: nat)
    requires i <= first < |s| && depth >= 1 && Markless(s, i, first) && IsMark(s, first)
    ensures CommentEnd(s, first, depth) == Some(end) <==> exists marks :: Balances(s, i, depth, marks, end)
    decreases |s| - first, 0
  {
    var inner := if At(s, first, "/*") then depth + 1 else depth - 1;
    assert CommentEnd(s, first, depth) == CommentEnd(s, first + 2, inner);
    if inner > 0 {
      CommentEndExactly(s, first + 2, first + 2, inner, end);
    }
    if CommentEnd(s, first, depth) == Some(end) {
      var rest: seq<nat> := [];
      if inner > 0 {
        rest :| Balances(s, first + 2, inner, rest, end);
      }
      BalancesStep(s, i, depth, first, rest, end);
      assert Balances(s, i, depth, [first] + rest, end);
    }
    if marks :| Balances(s, i, depth, marks, end) {
      assert MarkAt(s, i, marks, 0);
      assert marks[0] == first;
      assert marks == [first] + marks[1..];
      BalancesStep(s, i, depth, first, marks[1..], end);
    }
  }

  /** One step inside a quote: an ordinary character, a doubled quote, or a backslash escape. */
  predicate QuotedUnit(s: string, quote: char, from: nat, to: nat) {
    || (to == from + 1 <= |s| && s[from] != quote && (s[from] == '\\' ==> to == |s|))
    || (to == from + 2 <= |s| && s[from] == quote && s[from + 1] == quote)
    || (to == from + 2 <= |s| && s[from] != quote && s[from] == '\\')
  }

  /** `stops` cut the text from `from` to the closing quote before `end` into such units, so that no
      quote inside is single and unescaped, and the closing quote is not doubled. */
  predicate Quoted(s: string, quote: char, from: nat, stops: seq<nat>, end: nat) {
    && stops != [] && stops[0] == from && end == stops[|stops| - 1] + 1 <= |s|
    && (forall k :: 0 <= k < |stops| - 1 ==> QuotedUnit(s, quote, stops[k], stops[k + 1]))
    && s[end - 1] == quote && (end < |s| ==> s[end] != quote)
  }

  lemma QuotedStep(s: string, quote: char, from: nat, next: nat, rest: seq<nat>, end: nat)
    requires QuotedUnit(s, quote, from, next) && Quoted(s, quote, next, rest, end)
    ensures Quoted(s, quote, from, [from] + rest, end)
  {
    var stops := [from] + rest;
    forall k | 0 <= k < |stops| - 1 ensures QuotedUnit(s, quote, stops[k], stops[k + 1]) {
      assert k > 0 ==> stops[k] == rest[k - 1] && stops[k + 1] == rest[k];
    }
  }

  /** Where a character stands inside a quote, the next stop is fixed. */
  function NextStop(s: string, from: nat, quote: char): nat
    requires from < |s|
  {
    if s[from] == quote || (s[from] == '\\' && from + 1 < |s|) then from + 2 else from + 1
  }

  /** A quote ends exactly at the first quote that is neither doubled nor escaped. */
  lemma {:induction false} QuoteEndExactly(s: string, from: nat, quote: char, end: nat)
    requires from <= |s| && quote != '\\'
    ensures QuoteEnd(s, from, quote) == Some(end) <==> exists stops :: Quoted(s, quote, from, stops, end)
    decreases |s| - from
  {
    if from == |s| {
      if stops :| Quoted(s, quote, from, stops, end) {
        assert |stops| > 1 ==> QuotedUnit(s, quote, stops[0], stops[1]);
      }
    } else if s[from] == quote && (from + 1 == |s| || s[from + 1] != quote) {
      assert Quoted(s, quote, from, [from], from + 1);
      if stops :| Quoted(s, quote, from, stops, end) {
        assert |stops| > 1 ==> QuotedUnit(s, quote, stops[0], stops[1]);
      }
    } else {
      var next := NextStop(s, from, quote);
      assert QuotedUnit(s, quote, from, next);
      QuoteEndExactly(s, next, quote, end);
      if rest :| Quoted(s, quote, next, rest, end) {
        QuotedStep(s, quote, from, next, rest, end);
      }
      if stops :| Quoted(s, quote, from, stops, end) {
        assert |stops| > 1 && QuotedUnit(s, quote, stops[0], stops[1]) && stops[1] == next;
        var rest := stops[1..];
        forall k | 0 <= k < |rest| - 1 ensures QuotedUnit(s, quote, rest[k], rest[k + 1]) {
          assert QuotedUnit(s, quote, stops[k + 1], stops[k + 2]);
        }
        assert Quoted(s, quote, next, rest, end);
      }
    }
  }

  ghost predicate CommentEndsAt(s: string, from: nat, end: nat) {
    exists marks :: Balances(s, from, 1, marks, end)
  }

  ghost predicate QuoteEndsAt(s: string, quote: char, from: nat, end: nat) {
    exists stops :: Quoted(s, quote, from, stops, end)
  }

  /** What a search for the end of a comment must answer. */
  ghost predicate FindsCommentEnd(s: string, from: nat, r: Option<nat>) {
    forall end: nat {:trigger CommentEndsAt(s, from, end)} :: CommentEndsAt(s, from, end) <==> r == Some(end)
  }

  ghost predicate FindsQuoteEnd(s: string, quote: char, from: nat, r: Option<nat>) {
    forall end: nat {:trigger QuoteEndsAt(s, quote, from, end)} :: QuoteEndsAt(s, quote, from, end) <==> r == Some(end)
  }

  lemma EndsDecided(s: string, from: nat, quote: char)
    requires from <= |s| && quote != '\\'
    ensures FindsCommentEnd(s, from, CommentEnd(s, from, 1))
    ensures FindsQuoteEnd(s, quote, from, QuoteEnd(s, from, quote))
  {
    forall end: nat ensures CommentEndsAt(s, from, end) <==> CommentEnd(s, from, 1) == Some(end) {
      CommentEndExactly(s, from, from, 1, end);
    }
    forall end: nat ensures QuoteEndsAt(s, quote, from, end) <==> QuoteEnd(s, from, quote) == Some(end) {
      QuoteEndExactly(s, from, quote, end);
    }
  }

  // ---------------------------------------------------------------------------------------
  // The eraser
  // ---------------------------------------------------------------------------------------

  method FindFrom(s: string, text: string, from: nat) returns (r: Option<nat>)
    ensures r == Find(s, text, from)
  {
    var k := from;
    while k <= |s|
      invariant Find(s, text, from) == Find(s, text, k)
    {
      if k + |text| <= |s| && s[k..k + |text|] == text {
        return Some(k);
      }
      k := k + 1;
    }
    return None;
  }

  method SkipComment(s: string, index: nat) returns (r: Option<nat>)
    requires At(s, index, "/*")
    ensures r == CommentEnd(s, index + 2, 1)
    ensures FindsCommentEnd(s, index + 2, r)
  {
    EndsDecided(s, index + 2, ' ');
    var depth := 1;
    var end := index + 2;
    while end < |s| && depth > 0
      invariant index + 2 <= end <= |s| && CommentEnd(s, index + 2, 1) == CommentEnd(s, end, depth)
    {
      if At(s, end, "/*") {
        depth := depth + 1;
        end := end + 2;
      } else if At(s, end, "*/") {
        depth := depth - 1;
        end := end + 2;
      } else {
        end := end + 1;
      }
    }
    return if depth > 0 then None else Some(end);
  }

  method SkipQuote(s: string, index: nat) returns (r: Option<nat>)
    requires index < |s| && IsQuote(s[index])
    ensures r == QuoteEnd(s, index + 1, s[index])
    ensures FindsQuoteEnd(s, s[index], index + 1, r)
  {
    EndsDecided(s, index + 1, s[index]);
    var quote := s[index];
    var end := index + 1;
    while end < |s|
      invariant index + 1 <= end <= |s| && QuoteEnd(s, index + 1, quote) == QuoteEnd(s, end, quote)
    {
      if s[end] == quote {
        if end + 1 < |s| && s[end + 1] == quote {
          end := end + 2;
        } else {
          return Some(end + 1);
        }
      } else if s[end] == '\\' && end + 1 < |s| {
        end := end + 2;
      } else {
        end := end + 1;
      }
    }
    return None;
  }

  /** Where the token at a position ends. */
  method Scan(s: string, index: nat) returns (t: Token)
    requires index < |s|
    ensures t == TokenAt(s, index)
  {
    if At(s, index, "--") {
      var newline := FindFrom(s, "\n", index + 2);
      return Span(if newline.None? then |s| else newline.value);
    }
    if At(s, index, "/*") {
      var end := SkipComment(s, index);
      return SpanTo(end, Comment);
    }
    if IsQuote(s[index]) {
      var end := SkipQuote(s, index);
      return SpanTo(end, Quote);
    }
    if s[index] == '[' {
      var end := FindFrom(s, "]", index + 1);
      return if end.None? then Open(Identifier) else Span(end.value + 1);
    }
    if s[index] == '$' {
      var tag := DollarTag(s, index);
      if tag.Some? {
        var delimiter := s[index..tag.value];
        var end := FindFrom(s, delimiter, index + |delimiter|);
        return if end.None? then Open(DollarQuote) else Span(end.value + |delimiter|);
      }
    }
    return Plain;
  }

  method Overwrite(output: array<char>, from: nat, to: nat)
    requires from <= to <= output.Length
    modifies output
    ensures output[..] == old(output[..from]) + Spaces(to - from) + old(output[to..])
  {
    var position := from;
    while position < to
      invariant from <= position <= to
      invariant forall k :: from <= k < position ==> output[k] == ' '
      invariant output[..from] == old(output[..from]) && output[to..] == old(output[to..])
      invariant forall k :: position <= k < to ==> output[k] == old(output[k])
    {
      output[position] := ' ';
      position := position + 1;
    }
    assert output[from..to] == Spaces(to - from);
    assert output[..] == output[..from] + output[from..to] + output[to..];
  }

  /** Walk over the statement and overwrite every span in the output array. */
  method EraseLiteralsAndComments(statement: string) returns (r: Result<string, Unterminated>)
    ensures r == Erased(statement)
  {
    hide TokenAt, Opener, ErasedFrom, Spaces;
    var output := new char[|statement|](i requires 0 <= i < |statement| => statement[i]);
    var index := 0;
    assert output[..] == statement && output[..0] == [];
    PrependNothing(statement);
    while index < |statement|
      invariant index <= |statement| == output.Length
      invariant output[index..] == statement[index..]
      invariant Erased(statement) == Prepend(output[..index], ErasedFrom(statement, index))
      decreases |statement| - index
    {
      ghost var done := output[..index];
      var token := Scan(statement, index);
      ErasedStep(statement, index, done);
      if token.Open? {
        return Failure(token.kind);
      }
      if token.Span? {
        Overwrite(output, index, token.end);
        assert output[..token.end] == done + Spaces(token.end - index);
        index := token.end;
      } else {
        assert output[..index + 1] == done + [statement[index]];
        index := index + 1;
      }
    }
    assert output[..index] == output[..] && output[..] + [] == output[..];
    return Success(output[..]);
  }

  function Prepend(done: string, rest: Result<string, Unterminated>): Result<string, Unterminated> {
    if rest.Success? then Success(done + rest.value) else rest
  }

  lemma PrependNothing(s: string)
    ensures Erased(s) == Prepend([], ErasedFrom(s, 0)) && ErasedFrom(s, |s|) == Success("")
  {
    if Erased(s).Success? {
      assert [] + Erased(s).value == Erased(s).value;
    }
  }

  /** What one token adds to the text already produced. */
  lemma ErasedStep(s: string, i: nat, done: string)
    requires i < |s|
    ensures match TokenAt(s, i)
            case Plain => Prepend(done, ErasedFrom(s, i)) == Prepend(done + [s[i]], ErasedFrom(s, i + 1))
            case Span(end) => Prepend(done, ErasedFrom(s, i)) == Prepend(done + Spaces(end - i), ErasedFrom(s, end))
            case Open(kind) => ErasedFrom(s, i) == Failure(kind)
  {
    hide TokenAt, Spaces;
    match TokenAt(s, i)
    case Plain => PrependJoins(done, [s[i]], ErasedFrom(s, i + 1));
    case Span(end) => PrependJoins(done, Spaces(end - i), ErasedFrom(s, end));
    case Open(_) =>
  }

  lemma PrependJoins(done: string, piece: string, rest: Result<string, Unterminated>)
    ensures Prepend(done, Prepend(piece, rest)) == Prepend(done + piece, rest)
  {
    if rest.Success? {
      assert done + (piece + rest.value) == done + piece + rest.value;
    }
  }
}
