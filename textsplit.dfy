/** `splitTextSafely`: cutting an over-long text into pieces that fit a
    character budget, preferring a cut after a sentence mark, then after a
    clause mark, then at the last space, then a hard cut. */
module TextSplit {
  import opened Wrappers
  import opened Strings

  /** The two punctuation classes searched for a cut, in priority order. */
  datatype MarkClass = Sentence | Clause

  predicate IsMark(k: MarkClass, c: char) {
    match k
    case Sentence => c == '.' || c == '!' || c == '?'
    case Clause => c == ',' || c == ';' || c == ':'
  }

  predicate IsQuote(c: char) {
    c == '"' || c == '\''
  }

  /** The lookahead `(?=\s|$)` at position `j` of `w` (`$` is the end of `w`). */
  predicate BoundaryAt(w: string, j: int)
    requires 0 <= j <= |w|
  {
    j == |w| || IsSpace(w[j])
  }

  /** The length of the match of `[marks]["']?(?=\s|$)` that starts at `i`, or 0
      when none starts there. The optional quote is tried first; when the
      lookahead after it fails, the quote itself blocks the lookahead without it. */
  function MatchLength(w: string, k: MarkClass, i: int): (n: nat)
    requires 0 <= i < |w|
    ensures n <= 2 && i + n <= |w|
    ensures n > 0 <==> IsMark(k, w[i]) && (BoundaryAt(w, i + 1) || (i + 2 <= |w| && IsQuote(w[i + 1]) && BoundaryAt(w, i + 2)))
    ensures n == 2 ==> IsQuote(w[i + 1])
  {
    if !IsMark(k, w[i]) then 0
    else if i + 1 < |w| && IsQuote(w[i + 1]) && BoundaryAt(w, i + 2) then 2
    else if BoundaryAt(w, i + 1) then 1
    else 0
  }

  /** The start of the last match of class `k` in `w[..n]`'s positions. A match
      ends with a quote or a mark and the next one starts with a mark, so the
      matches of a global search never overlap: the last element of
      `w.match(regex)` is the match with the greatest start. */
  function LastMatchBelow(w: string, k: MarkClass, n: nat): (r: Option<nat>)
    requires n <= |w|
    ensures r.Some? ==> r.value < n && MatchLength(w, k, r.value) > 0
    ensures forall i | 0 <= i < n && (r.None? || r.value < i) :: MatchLength(w, k, i) == 0
  {
    if n == 0 then None
    else if MatchLength(w, k, n - 1) > 0 then Some(n - 1)
    else LastMatchBelow(w, k, n - 1)
  }

  function LastMatch(w: string, k: MarkClass): (r: Option<nat>)
    ensures r.Some? ==> r.value < |w| && MatchLength(w, k, r.value) > 0
    ensures forall i | 0 <= i < |w| && (r.None? || r.value < i) :: MatchLength(w, k, i) == 0
  {
    LastMatchBelow(w, k, |w|)
  }

  /** `w.lastIndexOf(lastMatch) + 1` for class `k`, or None when `w` has no match.
      The search is for the matched TEXT, so it may find a later occurrence of
      the same mark that is not itself followed by white space. */
  function CutAfter(w: string, k: MarkClass): (r: Option<int>)
    ensures r.None? <==> LastMatch(w, k).None?
    ensures r.Some? ==> LastMatch(w, k).value < r.value <= |w| && IsMark(k, w[r.value - 1])
  {
    match LastMatch(w, k)
    case None => None
    case Some(i) =>
      var m := w[i..i + MatchLength(w, k, i)];
      var p := LastIndexOf(w, m);
      assert OccursAt(w, m, i);
      assert w[p] == m[0] == w[i];
      Some(p + 1)
  }

  /** Where the window `w` (of length maxLength) is cut. */
  function CutIndex(w: string): (cut: int)
    requires |w| >= 1
    ensures 1 <= cut <= |w|
  {
    var c := match CutAfter(w, Sentence)
      case Some(c) => c
      case None =>
        match CutAfter(w, Clause)
        case Some(c) => c
        case None => LastIndexOf(w, " ");
    if c == -1 || c == 0 then |w| else c
  }

  /** With a sentence-end match in the window, the cut falls after a sentence
      mark at or after the last such match (the last occurrence of the matched
      text, which may lie beyond it); else likewise for a clause-end match;
      else at the last space (unless that is at 0); else at the end of the
      window. */
  lemma CutIndexPrefers(w: string)
    requires |w| >= 1
    ensures LastMatch(w, Sentence).Some? ==>
      LastMatch(w, Sentence).value < CutIndex(w) && IsMark(Sentence, w[CutIndex(w) - 1])
    ensures LastMatch(w, Sentence).None? && LastMatch(w, Clause).Some? ==>
      LastMatch(w, Clause).value < CutIndex(w) && IsMark(Clause, w[CutIndex(w) - 1])
    ensures LastMatch(w, Sentence).None? && LastMatch(w, Clause).None? ==>
      if LastIndexOf(w, " ") > 0 then CutIndex(w) == LastIndexOf(w, " ") && w[CutIndex(w)] == ' '
      else CutIndex(w) == |w|
  {
    var sp := LastIndexOf(w, " ");
    assert sp > 0 ==> w[sp..sp + 1] == " ";
  }

  /** The loop of `splitTextSafely` from a remaining text onwards. */
  function Chunks(rest: string, maxLength: int): (r: seq<string>)
    requires maxLength >= 1
    decreases |rest|
  {
    if |rest| == 0 then []
    else if |rest| <= maxLength then [rest]
    else
      var cut := CutIndex(rest[..maxLength]);
      [Trim(rest[..cut])] + Chunks(Trim(rest[cut..]), maxLength)
  }

  /** What `splitTextSafely(text, maxLength)` returns. */
  function SplitSafely(text: string, maxLength: int): (r: seq<string>)
    requires maxLength >= 1
  {
    if |text| <= maxLength then [text] else Chunks(text, maxLength)
  }

  /** `splitTextSafely`, step by step as the source runs it. */
  method SplitTextSafely(text: string, maxLength: int) returns (chunks: seq<string>)
    requires maxLength >= 1
    ensures chunks == SplitSafely(text, maxLength)
    ensures |text| <= maxLength ==> chunks == [text]
    ensures |chunks| >= 1
    ensures forall c | c in chunks :: |c| <= maxLength
    ensures NonSpace(Concat(chunks)) == NonSpace(text)
  {
    if |text| <= maxLength {
      SplitSafelyBounded(text, maxLength);
      SplitSafelyKeepsText(text, maxLength);
      return [text];
    }
    chunks := [];
    var remaining := text;
    while |remaining| > 0
      invariant Chunks(text, maxLength) == chunks + Chunks(remaining, maxLength)
      decreases |remaining|
    {
      if |remaining| <= maxLength {
        chunks := chunks + [remaining];
        break;
      }
      var cutIndex := FindCutIndex(remaining[..maxLength]);
      var piece, next := Trim(remaining[..cutIndex]), Trim(remaining[cutIndex..]);
      assert Chunks(remaining, maxLength) == [piece] + Chunks(next, maxLength);
      Associative(chunks, [piece], Chunks(next, maxLength));
      chunks := chunks + [piece];
      remaining := next;
    }
    SplitSafelyBounded(text, maxLength);
    SplitSafelyKeepsText(text, maxLength);
  }

  lemma Associative<T>(a: seq<T>, b: seq<T>, c: seq<T>)
    ensures a + (b + c) == (a + b) + c
  {
  }

  /** The cut search of one loop iteration, over the window `searchArea`. */
  method FindCutIndex(searchArea: string) returns (cutIndex: int)
    requires |searchArea| >= 1
    ensures cutIndex == CutIndex(searchArea)
    ensures 1 <= cutIndex <= |searchArea|
  {
    var maxLength := |searchArea|;
    cutIndex := -1;
    var sentenceEnd := LastMatch(searchArea, Sentence);
    if sentenceEnd.Some? {
      var i := sentenceEnd.value;
      CutAfterAt(searchArea, Sentence, i);
      var lastPunctuation := LastIndexOf(searchArea, searchArea[i..i + MatchLength(searchArea, Sentence, i)]);
      if lastPunctuation != -1 {
        cutIndex := lastPunctuation + 1;
      }
    }
    if cutIndex == -1 {
      var clauseEnd := LastMatch(searchArea, Clause);
      if clauseEnd.Some? {
        var i := clauseEnd.value;
        CutAfterAt(searchArea, Clause, i);
        var lastClause := LastIndexOf(searchArea, searchArea[i..i + MatchLength(searchArea, Clause, i)]);
        if lastClause != -1 {
          cutIndex := lastClause + 1;
        }
      }
    }
    if cutIndex == -1 {
      cutIndex := LastIndexOf(searchArea, " ");
    }
    if cutIndex == -1 || cutIndex == 0 {
      cutIndex := maxLength;
    }
  }

  /** The cut after the last match at `i`: one past the last occurrence of its text, which always exists. */
  lemma CutAfterAt(w: string, k: MarkClass, i: nat)
    requires LastMatch(w, k) == Some(i)
    ensures i + MatchLength(w, k, i) <= |w|
    ensures LastIndexOf(w, w[i..i + MatchLength(w, k, i)]) != -1
    ensures CutAfter(w, k) == Some(LastIndexOf(w, w[i..i + MatchLength(w, k, i)]) + 1)
  {
    assert OccursAt(w, w[i..i + MatchLength(w, k, i)], i);
  }

  /** Every piece fits the budget, and there is always at least one piece. */
  lemma SplitSafelyBounded(text: string, maxLength: int)
    requires maxLength >= 1
    ensures |SplitSafely(text, maxLength)| >= 1
    ensures forall c | c in SplitSafely(text, maxLength) :: |c| <= maxLength
  {
    if |text| > maxLength {
      ChunksBounded(text, maxLength);
    }
  }

  lemma {:induction false} ChunksBounded(rest: string, maxLength: int)
    requires maxLength >= 1
    ensures forall c | c in Chunks(rest, maxLength) :: |c| <= maxLength
    decreases |rest|
  {
    if |rest| > maxLength {
      var cut := CutIndex(rest[..maxLength]);
      ChunksBounded(Trim(rest[cut..]), maxLength);
    }
  }

  /** `gaps[0] + chunks[0] + gaps[1] + ... + chunks[n-1] + gaps[n]`. */
  function Weave(gaps: seq<string>, chunks: seq<string>): string
    requires |gaps| == |chunks| + 1
    decreases |chunks|
  {
    if chunks == [] then gaps[0] else gaps[0] + chunks[0] + Weave(gaps[1..], chunks[1..])
  }

  predicate AllBlank(gaps: seq<string>) {
    forall i | 0 <= i < |gaps| :: IsBlank(gaps[i])
  }

  /** `text` is `chunks` in order with only white space around and between them. */
  ghost predicate Spans(text: string, chunks: seq<string>) {
    exists gaps :: |gaps| == |chunks| + 1 && AllBlank(gaps) && text == Weave(gaps, chunks)
  }

  lemma WeavePrepend(p: string, gaps: seq<string>, chunks: seq<string>)
    requires |gaps| == |chunks| + 1
    ensures p + Weave(gaps, chunks) == Weave([p + gaps[0]] + gaps[1..], chunks)
  {
    var g := [p + gaps[0]] + gaps[1..];
    assert g[1..] == gaps[1..];
  }

  /** The cut loop removes only white space: the input is the chunks in order,
      separated and surrounded by white space. */
  lemma {:induction false} ChunksSpan(rest: string, maxLength: int)
    requires maxLength >= 1
    ensures Spans(rest, Chunks(rest, maxLength))
    decreases |rest|
  {
    if |rest| == 0 {
      assert rest == Weave([rest], []);
      assert AllBlank([rest]);
    } else if |rest| <= maxLength {
      assert rest == Weave(["", ""], [rest]);
      assert AllBlank(["", ""]);
    } else {
      var cut := CutIndex(rest[..maxLength]);
      ChunksSpan(Trim(rest[cut..]), maxLength);
      SpansCut(rest, cut, Chunks(Trim(rest[cut..]), maxLength));
    }
  }

  /** Cutting at `cut` and trimming both sides keeps the text spanned. */
  lemma SpansCut(rest: string, cut: int, rs: seq<string>)
    requires 0 <= cut <= |rest|
    requires Spans(Trim(rest[cut..]), rs)
    ensures Spans(rest, [Trim(rest[..cut])] + rs)
  {
    assert rest == rest[..cut] + rest[cut..];
    SpansJoin(rest[..cut], rest[cut..], rs);
  }

  lemma SpansJoin(head: string, tail: string, rs: seq<string>)
    requires Spans(Trim(tail), rs)
    ensures Spans(head + tail, [Trim(head)] + rs)
  {
    assert Spans(tail, rs) by { SpansTrimmed(tail, rs); }
    assert Spans(head, [Trim(head)]) by {
      SpansSelf(Trim(head));
      SpansTrimmed(head, [Trim(head)]);
    }
    SpansConcat(head, [Trim(head)], tail, rs);
  }

  lemma {:induction false} WeaveConcat(g1: seq<string>, xs: seq<string>, g2: seq<string>, ys: seq<string>)
    requires |g1| == |xs| + 1 && |g2| == |ys| + 1
    ensures Weave(g1, xs) + Weave(g2, ys) == Weave(g1[..|xs|] + [g1[|xs|] + g2[0]] + g2[1..], xs + ys)
    decreases |xs|
  {
    var g := g1[..|xs|] + [g1[|xs|] + g2[0]] + g2[1..];
    if xs == [] {
      WeavePrepend(g1[0], g2, ys);
      assert g == [g1[0] + g2[0]] + g2[1..];
      assert xs + ys == ys;
    } else {
      WeaveConcat(g1[1..], xs[1..], g2, ys);
      assert g[1..] == g1[1..][..|xs[1..]|] + [g1[1..][|xs[1..]|] + g2[0]] + g2[1..];
      assert (xs + ys)[1..] == xs[1..] + ys;
    }
  }

  lemma SpansConcat(x: string, xs: seq<string>, y: string, ys: seq<string>)
    requires Spans(x, xs) && Spans(y, ys)
    ensures Spans(x + y, xs + ys)
  {
    var g1 :| |g1| == |xs| + 1 && AllBlank(g1) && x == Weave(g1, xs);
    var g2 :| |g2| == |ys| + 1 && AllBlank(g2) && y == Weave(g2, ys);
    WeaveConcat(g1, xs, g2, ys);
    var g := g1[..|xs|] + [g1[|xs|] + g2[0]] + g2[1..];
    BlankConcat(g1[|xs|], g2[0]);
    assert AllBlank(g) by {
      forall i | 0 <= i < |g| ensures IsBlank(g[i]) {
        if i < |xs| { assert g[i] == g1[i]; }
        else if i > |xs| { assert g[i] == g2[i - |xs|]; }
      }
    }
  }

  lemma SpansSelf(s: string)
    ensures Spans(s, [s])
  {
    assert s == Weave(["", ""], [s]);
    assert AllBlank(["", ""]);
  }

  /** White space around a spanned text keeps it spanned by the same chunks. */
  lemma SpansTrimmed(s: string, xs: seq<string>)
    requires Spans(Trim(s), xs)
    ensures Spans(s, xs)
  {
    TrimSplit(s);
    var a, b := s[..Lead(s)], s[Lead(s) + |Trim(s)|..];
    assert a == Weave([a], []) && AllBlank([a]);
    assert b == Weave([b], []) && AllBlank([b]);
    SpansConcat(a, [], Trim(s), xs);
    assert [] + xs == xs;
    SpansConcat(a + Trim(s), xs, b, []);
    assert xs + [] == xs;
  }

  lemma {:induction false} NonSpaceWeave(gaps: seq<string>, chunks: seq<string>)
    requires |gaps| == |chunks| + 1 && AllBlank(gaps)
    ensures NonSpace(Weave(gaps, chunks)) == NonSpace(Concat(chunks))
    decreases |chunks|
  {
    NonSpaceBlank(gaps[0]);
    if chunks != [] {
      NonSpaceWeave(gaps[1..], chunks[1..]);
      NonSpaceConcat(gaps[0] + chunks[0], Weave(gaps[1..], chunks[1..]));
      NonSpaceConcat(gaps[0], chunks[0]);
      NonSpaceConcat(chunks[0], Concat(chunks[1..]));
    }
  }

  /** Lossless modulo white space: the pieces, in order and with white space
      between them, make up the text; hence no other character is lost,
      duplicated or reordered. */
  lemma SplitSafelyKeepsText(text: string, maxLength: int)
    requires maxLength >= 1
    ensures Spans(text, SplitSafely(text, maxLength))
    ensures NonSpace(Concat(SplitSafely(text, maxLength))) == NonSpace(text)
  {
    var r := SplitSafely(text, maxLength);
    if |text| <= maxLength {
      assert text == Weave(["", ""], [text]);
      assert AllBlank(["", ""]);
    } else {
      ChunksSpan(text, maxLength);
    }
    var gaps :| |gaps| == |r| + 1 && AllBlank(gaps) && text == Weave(gaps, r);
    NonSpaceWeave(gaps, r);
  }

  /** The quirk of searching for the matched text: in the window `Hi. Mr.X` the
      only sentence end is the `.` after `Hi`, yet `lastIndexOf(".")` finds the
      dot of `Mr.X`, so the cut falls after `Mr.`. */
  lemma CutFollowsLastOccurrence()
    ensures LastMatch("Hi. Mr.X", Sentence) == Some(2)
    ensures CutIndex("Hi. Mr.X") == 7
  {
    var w := "Hi. Mr.X";
    assert MatchLength(w, Sentence, 6) == 0;
    assert MatchLength(w, Sentence, 2) == 1;
    assert LastIndexOf(w, ".") == 6 by {
      assert OccursAt(w, ".", 6);
      assert !OccursAt(w, ".", 7) && !OccursAt(w, ".", 8);
    }
  }
}
