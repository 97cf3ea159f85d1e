/** The whitespace lexer of src/lexer.rs: a `Lexer` holds a borrowed source
    string and `parse_tokens` returns its maximal runs of non-whitespace
    characters, as `str::split_ascii_whitespace` does.

    The reference definition, `SplitAsciiWhitespace`, follows the standard
    library's own recipe (split at every whitespace character, then drop the
    empty fields). `ParseTokens` is an index-based scan that returns each
    piece as a span of the source, proved to produce exactly the reference
    pieces and to satisfy the span properties of `IsSplitting`. */
module Lexer {

  /** `u8::is_ascii_whitespace`: space, horizontal tab, line feed, form feed
      and carriage return. Vertical tab is not included. */
  predicate IsAsciiWhitespace(c: char)
  {
    c == ' ' || c == '\t' || c == '\n' || c == '\U{C}' || c == '\r'
  }

  predicate NoWhitespace(s: string)
  {
    forall i :: 0 <= i < |s| ==> !IsAsciiWhitespace(s[i])
  }

  function WhitespaceCount(s: string): nat
  {
    if s == [] then 0
    else (if IsAsciiWhitespace(s[0]) then 1 else 0) + WhitespaceCount(s[1..])
  }

  /** The source with every whitespace character removed. */
  function RemoveWhitespace(s: string): string
  {
    if s == [] then []
    else if IsAsciiWhitespace(s[0]) then RemoveWhitespace(s[1..])
    else [s[0]] + RemoveWhitespace(s[1..])
  }

  function Concat(xs: seq<string>): string
  {
    if xs == [] then [] else xs[0] + Concat(xs[1..])
  }

  /** `str::split` at every whitespace character: one field more than there
      are separators, empty fields included. */
  function Fields(s: string): (r: seq<string>)
    ensures |r| == WhitespaceCount(s) + 1
  {
    if s == [] then [[]]
    else
      var rest := Fields(s[1..]);
      if IsAsciiWhitespace(s[0]) then [[]] + rest
      else [[s[0]] + rest[0]] + rest[1..]
  }

  /** The `filter(|s| !s.is_empty())` step. */
  function DropEmpty(xs: seq<string>): seq<string>
  {
    if xs == [] then []
    else if xs[0] == [] then DropEmpty(xs[1..])
    else [xs[0]] + DropEmpty(xs[1..])
  }

  /** `str::split_ascii_whitespace`, the reference for `ParseTokens`. Every
      piece is non-empty and free of whitespace, and the pieces,
      concatenated, give the source with its whitespace removed. */
  function SplitAsciiWhitespace(s: string): (pieces: seq<string>)
    ensures forall k :: 0 <= k < |pieces| ==> pieces[k] != [] && NoWhitespace(pieces[k])
    ensures Concat(pieces) == RemoveWhitespace(s)
  {
    FieldsHaveNoWhitespace(s);
    DropEmptyKeepsProperty(Fields(s));
    ConcatDropEmpty(Fields(s));
    ConcatFields(s);
    DropEmpty(Fields(s))
  }

  // ---------------------------------------------------------------------
  // Properties of the reference definition

  lemma {:induction false} FieldsHaveNoWhitespace(s: string)
    ensures forall k :: 0 <= k < |Fields(s)| ==> NoWhitespace(Fields(s)[k])
  {
    if s != [] {
      FieldsHaveNoWhitespace(s[1..]);
      var rest := Fields(s[1..]);
      if !IsAsciiWhitespace(s[0]) {
        var head := [s[0]] + rest[0];
        assert NoWhitespace(rest[0]);
        assert forall i :: 1 <= i < |head| ==> head[i] == rest[0][i - 1];
        assert NoWhitespace(head);
        assert Fields(s) == [head] + rest[1..];
      }
    }
  }

  lemma {:induction false} ConcatFields(s: string)
    ensures Concat(Fields(s)) == RemoveWhitespace(s)
  {
    if s != [] {
      ConcatFields(s[1..]);
      var rest := Fields(s[1..]);
      assert Concat(rest) == rest[0] + Concat(rest[1..]);
      if IsAsciiWhitespace(s[0]) {
        assert ([[]] + rest)[1..] == rest;
      } else {
        var head := [s[0]] + rest[0];
        assert ([head] + rest[1..])[1..] == rest[1..];
      }
    }
  }

  lemma {:induction false} ConcatDropEmpty(xs: seq<string>)
    ensures Concat(DropEmpty(xs)) == Concat(xs)
  {
    if xs != [] {
      ConcatDropEmpty(xs[1..]);
      var rest := DropEmpty(xs[1..]);
      if xs[0] == [] {
        assert Concat(xs) == [] + Concat(xs[1..]);
      } else {
        var r := [xs[0]] + rest;
        assert r[0] == xs[0] && r[1..] == rest;
        assert Concat(r) == xs[0] + Concat(rest);
      }
    }
  }

  lemma {:induction false} DropEmptyKeepsProperty(xs: seq<string>)
    requires forall k :: 0 <= k < |xs| ==> NoWhitespace(xs[k])
    ensures forall k :: 0 <= k < |DropEmpty(xs)| ==>
              DropEmpty(xs)[k] != [] && NoWhitespace(DropEmpty(xs)[k])
  {
    if xs != [] {
      DropEmptyKeepsProperty(xs[1..]);
    }
  }

  lemma {:induction false} RemoveWhitespaceEmpty(s: string)
    ensures RemoveWhitespace(s) == [] <==> forall i :: 0 <= i < |s| ==> IsAsciiWhitespace(s[i])
  {
    if s != [] {
      RemoveWhitespaceEmpty(s[1..]);
      assert forall i :: 1 <= i < |s| ==> s[i] == s[1..][i - 1];
    }
  }

  lemma {:induction false} ConcatNonEmpty(xs: seq<string>)
    requires forall k :: 0 <= k < |xs| ==> xs[k] != []
    ensures Concat(xs) == [] <==> xs == []
  {
    if xs != [] {
      assert |Concat(xs)| >= |xs[0]| > 0;
    }
  }

  /** An empty or all-whitespace source, and only such a source, yields no
      pieces. */
  lemma SplitEmptyIff(s: string)
    ensures SplitAsciiWhitespace(s) == [] <==> forall i :: 0 <= i < |s| ==> IsAsciiWhitespace(s[i])
  {
    ConcatNonEmpty(SplitAsciiWhitespace(s));
    RemoveWhitespaceEmpty(s);
  }

  /** A leading whitespace character contributes nothing. */
  lemma SplitSkipsWhitespace(s: string)
    requires s != [] && IsAsciiWhitespace(s[0])
    ensures SplitAsciiWhitespace(s) == SplitAsciiWhitespace(s[1..])
  {
  }

  lemma {:induction false} FieldsOfRun(s: string, k: nat)
    requires k <= |s| && NoWhitespace(s[..k])
    ensures Fields(s)[0] == s[..k] + Fields(s[k..])[0]
    ensures Fields(s)[1..] == Fields(s[k..])[1..]
  {
    if k > 0 {
      assert s[..k][0] == s[0];
      FieldsOfRun(s[1..], k - 1);
      assert s[1..][k - 1..] == s[k..];
      assert s[..k] == [s[0]] + s[1..][..k - 1];
    } else {
      assert s[..k] == [] && s[k..] == s;
    }
  }

  /** A maximal leading run of non-whitespace characters is the first piece. */
  lemma SplitTakesRun(s: string, k: nat)
    requires 0 < k <= |s| && NoWhitespace(s[..k])
    requires k == |s| || IsAsciiWhitespace(s[k])
    ensures SplitAsciiWhitespace(s) == [s[..k]] + SplitAsciiWhitespace(s[k..])
  {
    FieldsOfRun(s, k);
    var tail := Fields(s[k..]);
    if k == |s| {
      assert s[k..] == [];
      assert tail == [[]];
    } else {
      assert tail == [[]] + Fields(s[k + 1..]);
      assert tail[1..] == Fields(s[k + 1..]);
    }
    assert tail[0] == [];
    assert Fields(s)[0] == s[..k];
    assert Fields(s) == [s[..k]] + tail[1..];
    assert ([s[..k]] + tail[1..])[1..] == tail[1..];
    assert DropEmpty(tail) == DropEmpty(tail[1..]);
  }

  // ---------------------------------------------------------------------
  // Pieces as spans of the source

  /** The `&str` a piece borrows from the source, as the indices
      `start..end` of its characters. */
  datatype Span = Span(start: nat, end: nat)

  predicate ValidSpan(s: string, sp: Span)
  {
    sp.start <= sp.end <= |s|
  }

  function Lexeme(s: string, sp: Span): string
    requires ValidSpan(s, sp)
  {
    s[sp.start..sp.end]
  }

  /** The pieces the spans borrow, in order. */
  function Lexemes(s: string, spans: seq<Span>): (r: seq<string>)
    requires forall k :: 0 <= k < |spans| ==> ValidSpan(s, spans[k])
    ensures |r| == |spans|
    ensures forall k :: 0 <= k < |spans| ==> r[k] == Lexeme(s, spans[k])
  {
    seq(|spans|, k requires 0 <= k < |spans| => Lexeme(s, spans[k]))
  }

  /** A non-empty, whitespace-free, maximal run of the source: the
      character before it and the one after it are whitespace or the
      string boundary. */
  predicate IsTokenSpan(s: string, sp: Span)
  {
    && sp.start < sp.end <= |s|
    && (forall i :: sp.start <= i < sp.end ==> !IsAsciiWhitespace(s[i]))
    && (sp.start == 0 || IsAsciiWhitespace(s[sp.start - 1]))
    && (sp.end == |s| || IsAsciiWhitespace(s[sp.end]))
  }

  /** Spans appear in increasing source order without overlap. */
  predicate InOrder(spans: seq<Span>)
  {
    forall k, l :: 0 <= k < l < |spans| ==> spans[k].end < spans[l].start
  }

  /** Every non-whitespace character of `s[lo..hi]` lies in some span. */
  predicate Covers(s: string, spans: seq<Span>, lo: nat, hi: nat)
    requires hi <= |s|
  {
    forall i :: lo <= i < hi && !IsAsciiWhitespace(s[i]) ==>
      exists k :: 0 <= k < |spans| && spans[k].start <= i < spans[k].end
  }

  /** The spans split `s[lo..]`: maximal whitespace-free runs starting at or
      after `lo`, in order, that together hold every non-whitespace
      character from `lo` on. */
  predicate SplittingFrom(s: string, lo: nat, spans: seq<Span>)
    requires lo <= |s|
  {
    && (forall k :: 0 <= k < |spans| ==> IsTokenSpan(s, spans[k]) && lo <= spans[k].start)
    && InOrder(spans)
    && Covers(s, spans, lo, |s|)
  }

  /** What the spans of `parse_tokens` are: maximal whitespace-free runs, in
      order, that together hold every non-whitespace character. */
  predicate IsSplitting(s: string, spans: seq<Span>)
  {
    SplittingFrom(s, 0, spans)
  }

  /** `Lexer<'s>`: a borrowed view of the source. Borrowing is not modelled;
      the lexer simply holds the string. */
  datatype Lexer = Lexer(source: string)

  /** `Lexer::new` keeps the source exactly as given. */
  function New(source: string): (lexer: Lexer)
    ensures lexer.source == source
  {
    Lexer(source)
  }

  /** The scan has split `s[..i]`: its spans are token spans ending by `i`,
      in order, and cover every non-whitespace character before `i`. */
  predicate ScannedTo(s: string, spans: seq<Span>, i: nat)
    requires i <= |s|
  {
    && (forall k :: 0 <= k < |spans| ==> IsTokenSpan(s, spans[k]) && spans[k].end <= i)
    && InOrder(spans)
    && Covers(s, spans, 0, i)
  }

  /** Passing a whitespace character keeps the scan split so far. */
  lemma ScanWhitespace(s: string, spans: seq<Span>, i: nat)
    requires i < |s| && IsAsciiWhitespace(s[i]) && ScannedTo(s, spans, i)
    requires Lexemes(s, spans) + SplitAsciiWhitespace(s[i..]) == SplitAsciiWhitespace(s)
    ensures ScannedTo(s, spans, i + 1)
    ensures Lexemes(s, spans) + SplitAsciiWhitespace(s[i + 1..]) == SplitAsciiWhitespace(s)
  {
    SplitSkipsWhitespace(s[i..]);
  }

  /** A maximal run after the scanned part extends the scanned spans. */
  lemma ScannedRun(s: string, spans: seq<Span>, start: nat, end: nat)
    requires start < end <= |s| && ScannedTo(s, spans, start)
    requires IsTokenSpan(s, Span(start, end))
    ensures ScannedTo(s, spans + [Span(start, end)], end)
  {
    var sp := Span(start, end);
    var spans' := spans + [sp];
    assert !IsAsciiWhitespace(s[start]);
    forall k | 0 <= k < |spans|
      ensures spans[k].end < start
    {
      assert spans[k].end < |s| ==> IsAsciiWhitespace(s[spans[k].end]);
    }
    forall k, l | 0 <= k < l < |spans'|
      ensures spans'[k].end < spans'[l].start
    {
      assert spans'[k] == spans[k];
      assert l < |spans| ==> spans'[l] == spans[l];
      assert l == |spans| ==> spans'[l] == sp;
    }
    forall i | 0 <= i < end && !IsAsciiWhitespace(s[i])
      ensures exists k :: 0 <= k < |spans'| && spans'[k].start <= i < spans'[k].end
    {
      if i < start {
        var k :| 0 <= k < |spans| && spans[k].start <= i < spans[k].end;
        assert spans'[k] == spans[k];
      } else {
        assert spans'[|spans|] == sp;
      }
    }
  }

  lemma SplitAfterRun(s: string, start: nat, end: nat)
    requires start < end <= |s|
    requires NoWhitespace(s[start..end]) && (end == |s| || IsAsciiWhitespace(s[end]))
    ensures SplitAsciiWhitespace(s[start..]) == [s[start..end]] + SplitAsciiWhitespace(s[end..])
  {
    var t := s[start..];
    assert t[..end - start] == s[start..end];
    assert t[end - start..] == s[end..];
    SplitTakesRun(t, end - start);
  }

  /** The pieces still to come after a run are those after its end. */
  lemma LexemesAfterRun(s: string, spans: seq<Span>, start: nat, end: nat)
    requires start < end <= |s| && forall k :: 0 <= k < |spans| ==> ValidSpan(s, spans[k])
    requires NoWhitespace(s[start..end]) && (end == |s| || IsAsciiWhitespace(s[end]))
    requires Lexemes(s, spans) + SplitAsciiWhitespace(s[start..]) == SplitAsciiWhitespace(s)
    ensures Lexemes(s, spans + [Span(start, end)]) + SplitAsciiWhitespace(s[end..])
            == SplitAsciiWhitespace(s)
  {
    var run := Span(start, end);
    SplitAfterRun(s, start, end);
    LexemesAppend(s, spans, run);
    var done, rest := Lexemes(s, spans), SplitAsciiWhitespace(s[end..]);
    assert done + [Lexeme(s, run)] + rest == done + ([Lexeme(s, run)] + rest);
  }

  /** Passing a maximal run `s[start..end]` adds its span to the scan. */
  lemma ScanRun(s: string, spans: seq<Span>, start: nat, end: nat)
    requires start < end <= |s| && ScannedTo(s, spans, start)
    requires IsTokenSpan(s, Span(start, end))
    requires Lexemes(s, spans) + SplitAsciiWhitespace(s[start..]) == SplitAsciiWhitespace(s)
    ensures ScannedTo(s, spans + [Span(start, end)], end)
    ensures Lexemes(s, spans + [Span(start, end)]) + SplitAsciiWhitespace(s[end..])
            == SplitAsciiWhitespace(s)
  {
    ScannedRun(s, spans, start, end);
    assert NoWhitespace(s[start..end]);
    LexemesAfterRun(s, spans, start, end);
  }

  lemma LexemesAppend(s: string, spans: seq<Span>, sp: Span)
    requires forall k :: 0 <= k < |spans| ==> ValidSpan(s, spans[k])
    requires ValidSpan(s, sp)
    ensures Lexemes(s, spans + [sp]) == Lexemes(s, spans) + [Lexeme(s, sp)]
  {
    var spans' := spans + [sp];
    assert forall k :: 0 <= k < |spans| ==> spans'[k] == spans[k];
  }

  /** The end of the run of non-whitespace characters that starts at
      `start`: the first whitespace character after it, or the end of `s`. */
  method RunEnd(s: string, start: nat) returns (end: nat)
    requires start < |s| && !IsAsciiWhitespace(s[start])
    ensures start < end <= |s|
    ensures forall j :: start <= j < end ==> !IsAsciiWhitespace(s[j])
    ensures end == |s| || IsAsciiWhitespace(s[end])
  {
    end := start + 1;
    while end < |s| && !IsAsciiWhitespace(s[end])
      invariant start < end <= |s|
      invariant forall j :: start <= j < end ==> !IsAsciiWhitespace(s[j])
    {
      end := end + 1;
    }
  }

  /** `Lexer::parse_tokens`: the pieces of the source, each given as the
      span it borrows. It reads the lexer and changes nothing. */
  method ParseTokens(lexer: Lexer) returns (spans: seq<Span>)
    ensures IsSplitting(lexer.source, spans)
    ensures Lexemes(lexer.source, spans) == SplitAsciiWhitespace(lexer.source)
  {
    var s := lexer.source;
    var i := 0;
    spans := [];
    while i < |s|
      invariant 0 <= i <= |s|
      invariant ScannedTo(s, spans, i)
      invariant i == 0 || i == |s| || IsAsciiWhitespace(s[i - 1]) || IsAsciiWhitespace(s[i])
      invariant Lexemes(s, spans) + SplitAsciiWhitespace(s[i..]) == SplitAsciiWhitespace(s)
    {
      if IsAsciiWhitespace(s[i]) {
        ScanWhitespace(s, spans, i);
        i := i + 1;
      } else {
        var start := i;
        i := RunEnd(s, start);
        ScanRun(s, spans, start, i);
        spans := spans + [Span(start, i)];
      }
    }
    assert s[i..] == [];
  }

  // ---------------------------------------------------------------------
  // The spans are determined by the source

  /** The first span of a splitting starts at or before every
      non-whitespace character from `lo` on. */
  lemma FirstStartIsLeast(s: string, lo: nat, a: seq<Span>, i: nat)
    requires lo <= |s| && SplittingFrom(s, lo, a) && a != []
    requires lo <= i < |s| && !IsAsciiWhitespace(s[i])
    ensures a[0].start <= i
  {
    var k :| 0 <= k < |a| && a[k].start <= i < a[k].end;
    assert k == 0 || a[0].end < a[k].start;
  }

  /** A token span ends at or before any whitespace character after its start. */
  lemma SpanEndsAtWhitespace(s: string, sp: Span, j: nat)
    requires IsTokenSpan(s, sp) && sp.start <= j < |s| && IsAsciiWhitespace(s[j])
    ensures sp.end <= j
  {
  }

  lemma FirstSpansAgree(s: string, lo: nat, a: seq<Span>, b: seq<Span>)
    requires lo <= |s| && SplittingFrom(s, lo, a) && SplittingFrom(s, lo, b)
    requires a != [] && b != []
    ensures a[0] == b[0]
  {
    var x, y := a[0], b[0];
    assert IsTokenSpan(s, x) && IsTokenSpan(s, y);
    FirstStartIsLeast(s, lo, b, x.start);
    FirstStartIsLeast(s, lo, a, y.start);
    if x.end < |s| {
      SpanEndsAtWhitespace(s, y, x.end);
    }
    if y.end < |s| {
      SpanEndsAtWhitespace(s, x, y.end);
    }
  }

  lemma SplittingTail(s: string, lo: nat, a: seq<Span>)
    requires lo <= |s| && SplittingFrom(s, lo, a) && a != []
    ensures a[0].end <= |s| && SplittingFrom(s, a[0].end, a[1..])
  {
  }

  lemma {:induction false} SplittingUniqueFrom(s: string, lo: nat, a: seq<Span>, b: seq<Span>)
    requires lo <= |s| && SplittingFrom(s, lo, a) && SplittingFrom(s, lo, b)
    ensures a == b
    decreases |a|
  {
    assert a != [] ==> IsTokenSpan(s, a[0]) && !IsAsciiWhitespace(s[a[0].start]);
    assert b != [] ==> IsTokenSpan(s, b[0]) && !IsAsciiWhitespace(s[b[0].start]);
    if a != [] && b != [] {
      FirstSpansAgree(s, lo, a, b);
      SplittingTail(s, lo, a);
      SplittingTail(s, lo, b);
      SplittingUniqueFrom(s, a[0].end, a[1..], b[1..]);
      assert a == [a[0]] + a[1..] && b == [b[0]] + b[1..];
    }
  }

  /** At most one sequence of spans satisfies `IsSplitting`, so the result
      of `ParseTokens` is determined by the source alone: calling it twice
      on the same lexer gives equal results. */
  lemma SplittingUnique(s: string, a: seq<Span>, b: seq<Span>)
    requires IsSplitting(s, a) && IsSplitting(s, b)
    ensures a == b
  {
    SplittingUniqueFrom(s, 0, a, b);
  }
}
