/** The batch schedule of the two generators: which texts are dispatched, for
    which speaker and in what order, as a function of the dialogue lines.
    The generators in GeminiService run this schedule step by step. */
module Batching {
  import opened Wrappers
  import opened Strings
  import opened TextSplit
  import opened Types

  /** The per-request character budget of both generators. */
  const MAX_BATCH_CHARS: int := 1800

  /** One `processBatch(text, speaker)` call. */
  datatype Batch = Batch(speaker: string, text: string)

  /** What offering one line's text to the buffer dispatches, and the new buffer. */
  datatype Absorbed = Absorbed(sent: seq<string>, buffer: string)

  /** The buffer rule shared by both generators: append the line with a single
      space while the trimmed result fits; otherwise dispatch the buffer, split
      the line, dispatch all its pieces but the last, and keep the last. */
  function Absorb(buffer: string, text: string): (r: Absorbed)
  {
    var combined := Trim(buffer + " " + text);
    if |combined| <= MAX_BATCH_CHARS then Absorbed([], combined)
    else
      var pieces := SplitSafely(text, MAX_BATCH_CHARS);
      SplitSafelyBounded(text, MAX_BATCH_CHARS);
      Absorbed((if buffer != "" then [buffer] else []) + pieces[..|pieces| - 1], pieces[|pieces| - 1])
  }

  /** Nothing Absorb dispatches or keeps exceeds the budget, if the buffer did not. */
  lemma AbsorbBounded(buffer: string, text: string)
    requires |buffer| <= MAX_BATCH_CHARS
    ensures forall t | t in Absorb(buffer, text).sent :: |t| <= MAX_BATCH_CHARS
    ensures |Absorb(buffer, text).buffer| <= MAX_BATCH_CHARS
  {
    if |Trim(buffer + " " + text)| > MAX_BATCH_CHARS {
      SplitSafelyBounded(text, MAX_BATCH_CHARS);
      OverflowBounded(buffer, SplitSafely(text, MAX_BATCH_CHARS));
    }
  }

  lemma OverflowBounded(buffer: string, pieces: seq<string>)
    requires |buffer| <= MAX_BATCH_CHARS && |pieces| >= 1
    requires forall t | t in pieces :: |t| <= MAX_BATCH_CHARS
    ensures forall t | t in (if buffer != "" then [buffer] else []) + pieces[..|pieces| - 1] :: |t| <= MAX_BATCH_CHARS
    ensures |pieces[|pieces| - 1]| <= MAX_BATCH_CHARS
  {
    assert pieces[|pieces| - 1] in pieces;
    assert forall t | t in pieces[..|pieces| - 1] :: t in pieces;
  }

  /** Absorb loses no non-white-space character and keeps their order: what it
      dispatches followed by the new buffer says the old buffer followed by the line. */
  lemma AbsorbKeepsText(buffer: string, text: string)
    ensures NonSpace(Concat(Absorb(buffer, text).sent)) + NonSpace(Absorb(buffer, text).buffer)
         == NonSpace(buffer) + NonSpace(text)
  {
    if |Trim(buffer + " " + text)| > MAX_BATCH_CHARS {
      OverflowCaseKeepsText(buffer, text);
    } else {
      FitCaseKeepsText(buffer, text);
    }
  }

  lemma FitCaseKeepsText(buffer: string, text: string)
    requires |Trim(buffer + " " + text)| <= MAX_BATCH_CHARS
    ensures NonSpace(Concat(Absorb(buffer, text).sent)) + NonSpace(Absorb(buffer, text).buffer)
         == NonSpace(buffer) + NonSpace(text)
  {
    assert Absorb(buffer, text) == Absorbed([], Trim(buffer + " " + text));
    NonSpaceJoin(buffer, text);
    NothingSent(Trim(buffer + " " + text));
  }

  lemma OverflowCaseKeepsText(buffer: string, text: string)
    requires |Trim(buffer + " " + text)| > MAX_BATCH_CHARS
    ensures NonSpace(Concat(Absorb(buffer, text).sent)) + NonSpace(Absorb(buffer, text).buffer)
         == NonSpace(buffer) + NonSpace(text)
  {
    var pieces := SplitSafely(text, MAX_BATCH_CHARS);
    SplitSafelyBounded(text, MAX_BATCH_CHARS);
    SplitSafelyKeepsText(text, MAX_BATCH_CHARS);
    assert Absorb(buffer, text)
        == Absorbed((if buffer != "" then [buffer] else []) + pieces[..|pieces| - 1], pieces[|pieces| - 1]);
    OverflowKeepsText(buffer, pieces);
  }

  lemma NothingSent(buffer: string)
    ensures NonSpace(Concat([])) + NonSpace(buffer) == NonSpace(buffer)
  {
    assert Concat([]) == "";
  }

  /** Dispatching the buffer (when non-empty) and all pieces but the last, then
      keeping the last, says the buffer followed by all the pieces. */
  lemma OverflowKeepsText(buffer: string, pieces: seq<string>)
    requires |pieces| >= 1
    ensures NonSpace(Concat((if buffer != "" then [buffer] else []) + pieces[..|pieces| - 1]))
          + NonSpace(pieces[|pieces| - 1])
         == NonSpace(buffer) + NonSpace(Concat(pieces))
  {
    var init, last := pieces[..|pieces| - 1], pieces[|pieces| - 1];
    var first: seq<string> := if buffer != "" then [buffer] else [];
    assert NonSpace(Concat(first + init)) == NonSpace(buffer) + NonSpace(Concat(init)) by {
      ConcatAppend(first, init);
      NonSpaceConcat(Concat(first), Concat(init));
      FirstText(buffer);
    }
    assert NonSpace(Concat(pieces)) == NonSpace(Concat(init)) + NonSpace(last) by {
      ConcatLast(pieces);
      NonSpaceConcat(Concat(init), last);
    }
    Associative(NonSpace(buffer), NonSpace(Concat(init)), NonSpace(last));
  }

  lemma FirstText(buffer: string)
    ensures Concat(if buffer != "" then [buffer] else []) == buffer
  {
    if buffer != "" {
      assert Concat([buffer]) == buffer + Concat([]);
    }
  }

  /** The interleaved generator's loop state: `currentSpeaker`, `currentBatchText`
      and the batches dispatched so far. */
  datatype Schedule = Schedule(current: Option<string>, buffer: string, sent: seq<Batch>)

  /** JavaScript truthiness of `currentSpeaker`: neither null nor the empty string. */
  predicate Named(current: Option<string>) {
    current.Some? && current.value != ""
  }

  /** The batch `if (currentSpeaker && currentBatchText) processBatch(...)` dispatches. */
  function Flush(s: Schedule): (r: seq<Batch>)
    ensures |r| <= 1
  {
    if Named(s.current) && s.buffer != "" then [Batch(s.current.value, s.buffer)] else []
  }

  /** The texts dispatched for one speaker. */
  function Attribute(speaker: string, texts: seq<string>): (bs: seq<Batch>)
    ensures |bs| == |texts|
    ensures forall i | 0 <= i < |texts| :: bs[i] == Batch(speaker, texts[i])
  {
    seq(|texts|, i requires 0 <= i < |texts| => Batch(speaker, texts[i]))
  }

  /** A line by a speaker other than the current one flushes the buffer and starts afresh. */
  function Switch(s: Schedule, speaker: string): Schedule {
    if Some(speaker) != s.current then Schedule(Some(speaker), "", s.sent + Flush(s)) else s
  }

  /** Offering the line's text to the buffer, attributing dispatches to the line's speaker. */
  function Feed(s: Schedule, line: DialogueLine): Schedule {
    var a := Absorb(s.buffer, line.text);
    Schedule(s.current, a.buffer, s.sent + Attribute(line.speaker, a.sent))
  }

  /** One iteration of the interleaved loop. */
  function Step(s: Schedule, line: DialogueLine): Schedule {
    Feed(Switch(s, line.speaker), line)
  }

  /** The loop state after the given lines. */
  function Run(lines: seq<DialogueLine>): Schedule
    decreases |lines|
  {
    if lines == [] then Schedule(None, "", [])
    else Step(Run(lines[..|lines| - 1]), lines[|lines| - 1])
  }

  /** Every batch the interleaved generator dispatches, in dispatch order. */
  function Plan(lines: seq<DialogueLine>): seq<Batch> {
    Run(lines).sent + Flush(Run(lines))
  }

  /** One iteration of the per-speaker loop. */
  function SoloStep(a: Absorbed, text: string): Absorbed {
    var b := Absorb(a.buffer, text);
    Absorbed(a.sent + b.sent, b.buffer)
  }

  /** The per-speaker generator's loop state after one speaker's texts. */
  function SoloRun(texts: seq<string>): Absorbed
    decreases |texts|
  {
    if texts == [] then Absorbed([], "")
    else SoloStep(SoloRun(texts[..|texts| - 1]), texts[|texts| - 1])
  }

  /** The buffer a loop leaves over, which its final flush dispatches when non-empty. */
  function Leftover(buffer: string): seq<string> {
    if buffer != "" then [buffer] else []
  }

  /** Every text the per-speaker generator dispatches for one speaker, in order. */
  function SoloPlan(texts: seq<string>): seq<string> {
    SoloRun(texts).sent + Leftover(SoloRun(texts).buffer)
  }

  function Texts(lines: seq<DialogueLine>): (ts: seq<string>)
    ensures |ts| == |lines|
    ensures forall i | 0 <= i < |lines| :: ts[i] == lines[i].text
  {
    seq(|lines|, i requires 0 <= i < |lines| => lines[i].text)
  }

  lemma RunLast(lines: seq<DialogueLine>)
    requires lines != []
    ensures Run(lines) == Step(Run(lines[..|lines| - 1]), lines[|lines| - 1])
  {
  }

  lemma SoloRunLast(texts: seq<string>)
    requires texts != []
    ensures SoloRun(texts) == SoloStep(SoloRun(texts[..|texts| - 1]), texts[|texts| - 1])
  {
  }

  // ----- length bound -----

  /** No dispatched batch and no buffered text exceeds the budget. */
  predicate Bounded(s: Schedule) {
    |s.buffer| <= MAX_BATCH_CHARS && forall b | b in s.sent :: |b.text| <= MAX_BATCH_CHARS
  }

  lemma SwitchBounded(s: Schedule, speaker: string)
    requires Bounded(s)
    ensures Bounded(Switch(s, speaker))
  {
  }

  lemma FeedBounded(s: Schedule, line: DialogueLine)
    requires Bounded(s)
    ensures Bounded(Feed(s, line))
  {
    var a := Absorb(s.buffer, line.text);
    AbsorbBounded(s.buffer, line.text);
    AttributeBounded(line.speaker, a.sent);
    assert Feed(s, line) == Schedule(s.current, a.buffer, s.sent + Attribute(line.speaker, a.sent));
  }

  lemma AttributeBounded(speaker: string, texts: seq<string>)
    requires forall t | t in texts :: |t| <= MAX_BATCH_CHARS
    ensures forall b | b in Attribute(speaker, texts) :: |b.text| <= MAX_BATCH_CHARS
  {
    var bs := Attribute(speaker, texts);
    forall b | b in bs ensures |b.text| <= MAX_BATCH_CHARS {
      var i :| 0 <= i < |bs| && bs[i] == b;
      assert texts[i] in texts;
    }
  }

  lemma {:induction false} RunBounded(lines: seq<DialogueLine>)
    ensures Bounded(Run(lines))
    decreases |lines|
  {
    if lines != [] {
      var s := Run(lines[..|lines| - 1]);
      RunBounded(lines[..|lines| - 1]);
      SwitchBounded(s, lines[|lines| - 1].speaker);
      FeedBounded(Switch(s, lines[|lines| - 1].speaker), lines[|lines| - 1]);
    }
  }

  /** Every batch the interleaved generator dispatches is at most 1800
      characters long (before the style prefix is added). */
  lemma PlanBounded(lines: seq<DialogueLine>)
    ensures forall b | b in Plan(lines) :: |b.text| <= MAX_BATCH_CHARS
  {
    RunBounded(lines);
  }

  predicate SoloBounded(a: Absorbed) {
    |a.buffer| <= MAX_BATCH_CHARS && forall t | t in a.sent :: |t| <= MAX_BATCH_CHARS
  }

  lemma SoloStepBounded(a: Absorbed, text: string)
    requires SoloBounded(a)
    ensures SoloBounded(SoloStep(a, text))
  {
    AbsorbBounded(a.buffer, text);
    var b := Absorb(a.buffer, text);
    assert SoloStep(a, text) == Absorbed(a.sent + b.sent, b.buffer);
  }

  lemma {:induction false} SoloRunBounded(texts: seq<string>)
    ensures SoloBounded(SoloRun(texts))
    decreases |texts|
  {
    if texts != [] {
      SoloRunBounded(texts[..|texts| - 1]);
      SoloStepBounded(SoloRun(texts[..|texts| - 1]), texts[|texts| - 1]);
    }
  }

  /** Every text the per-speaker generator dispatches is at most 1800 characters long. */
  lemma SoloPlanBounded(texts: seq<string>)
    ensures forall t | t in SoloPlan(texts) :: |t| <= MAX_BATCH_CHARS
  {
    SoloRunBounded(texts);
  }

  // ----- order and losslessness -----

  function TagChars(speaker: string, cs: string): (r: seq<(string, char)>)
    ensures |r| == |cs|
    ensures forall i | 0 <= i < |cs| :: r[i] == (speaker, cs[i])
  {
    seq(|cs|, i requires 0 <= i < |cs| => (speaker, cs[i]))
  }

  /** The non-white-space characters of `text`, each paired with who speaks it. */
  function Tag(speaker: string, text: string): seq<(string, char)> {
    TagChars(speaker, NonSpace(text))
  }

  lemma TagSplit(speaker: string, x: string, y: string)
    ensures Tag(speaker, x + y) == Tag(speaker, x) + Tag(speaker, y)
  {
    NonSpaceConcat(x, y);
  }

  /** Everything the batches say, character by character, with the speaker saying it. */
  function Voiced(bs: seq<Batch>): seq<(string, char)>
    decreases |bs|
  {
    if bs == [] then [] else Voiced(bs[..|bs| - 1]) + Tag(bs[|bs| - 1].speaker, bs[|bs| - 1].text)
  }

  /** Everything the script says, character by character, with the speaker saying it. */
  function Said(lines: seq<DialogueLine>): seq<(string, char)>
    decreases |lines|
  {
    if lines == [] then []
    else Said(lines[..|lines| - 1]) + Tag(lines[|lines| - 1].speaker, lines[|lines| - 1].text)
  }

  lemma {:induction false} VoicedAppend(a: seq<Batch>, b: seq<Batch>)
    ensures Voiced(a + b) == Voiced(a) + Voiced(b)
    decreases |b|
  {
    if b == [] {
      assert a + b == a;
    } else {
      var init, last := b[..|b| - 1], b[|b| - 1];
      assert (a + b)[..|a + b| - 1] == a + init;
      VoicedAppend(a, init);
      Associative(Voiced(a), Voiced(init), Tag(last.speaker, last.text));
    }
  }

  lemma {:induction false} VoicedAttribute(speaker: string, texts: seq<string>)
    ensures Voiced(Attribute(speaker, texts)) == Tag(speaker, Concat(texts))
    decreases |texts|
  {
    if texts == [] {
      assert Concat(texts) == "";
    } else {
      var init := texts[..|texts| - 1];
      assert Attribute(speaker, texts)[..|texts| - 1] == Attribute(speaker, init);
      VoicedAttribute(speaker, init);
      ConcatLast(texts);
      TagSplit(speaker, Concat(init), texts[|texts| - 1]);
    }
  }

  /** The speaker whose text the buffer holds ("" before the first line). */
  function Holder(s: Schedule): string {
    if s.current.Some? then s.current.value else ""
  }

  /** What the dispatched batches and the buffer say together. */
  function Pending(s: Schedule): seq<(string, char)> {
    Voiced(s.sent) + Tag(Holder(s), s.buffer)
  }

  /** The schedule never buffers text for the empty speaker or for no speaker. */
  predicate Attributable(s: Schedule) {
    s.current != Some("") && (s.current.None? ==> s.buffer == "")
  }

  /** Flushing moves the buffer, unchanged, to the dispatched batches. */
  lemma FlushKeepsScript(s: Schedule)
    requires Attributable(s)
    ensures Voiced(s.sent + Flush(s)) == Pending(s)
  {
    VoicedAppend(s.sent, Flush(s));
    if Flush(s) == [] {
      assert NonSpace(s.buffer) == [];
    } else {
      assert Voiced(Flush(s)) == Voiced([]) + Tag(Holder(s), s.buffer);
    }
  }

  lemma SwitchKeepsScript(s: Schedule, speaker: string)
    requires Attributable(s)
    ensures Switch(s, speaker).current == Some(speaker)
    ensures Pending(Switch(s, speaker)) == Pending(s)
  {
    if Some(speaker) != s.current {
      FlushKeepsScript(s);
      assert Tag(speaker, "") == [] by {
        assert NonSpace("") == [];
      }
    }
  }

  /** Absorbing a line for a speaker keeps what the batches and the buffer say. */
  lemma AbsorbKeepsScript(sent: seq<Batch>, speaker: string, buffer: string, text: string)
    ensures Voiced(sent + Attribute(speaker, Absorb(buffer, text).sent)) + Tag(speaker, Absorb(buffer, text).buffer)
         == Voiced(sent) + Tag(speaker, buffer) + Tag(speaker, text)
  {
    var a := Absorb(buffer, text);
    var v, t, k := Voiced(sent), Tag(speaker, Concat(a.sent)), Tag(speaker, a.buffer);
    assert Voiced(sent + Attribute(speaker, a.sent)) == v + t by {
      VoicedAppend(sent, Attribute(speaker, a.sent));
      VoicedAttribute(speaker, a.sent);
    }
    assert t + k == Tag(speaker, buffer) + Tag(speaker, text) by {
      AbsorbKeepsText(buffer, text);
      NonSpaceConcat(Concat(a.sent), a.buffer);
      NonSpaceConcat(buffer, text);
      TagSplit(speaker, Concat(a.sent), a.buffer);
      TagSplit(speaker, buffer, text);
    }
    Associative(v, t, k);
    Associative(v, Tag(speaker, buffer), Tag(speaker, text));
  }

  lemma FeedKeepsScript(s: Schedule, line: DialogueLine)
    requires s.current == Some(line.speaker)
    ensures Feed(s, line).current == Some(line.speaker)
    ensures Pending(Feed(s, line)) == Pending(s) + Tag(line.speaker, line.text)
  {
    var a := Absorb(s.buffer, line.text);
    assert Feed(s, line) == Schedule(s.current, a.buffer, s.sent + Attribute(line.speaker, a.sent));
    AbsorbKeepsScript(s.sent, line.speaker, s.buffer, line.text);
  }

  lemma {:induction false} RunKeepsScript(lines: seq<DialogueLine>)
    requires forall i | 0 <= i < |lines| :: lines[i].speaker != ""
    ensures Attributable(Run(lines))
    ensures Pending(Run(lines)) == Said(lines)
    decreases |lines|
  {
    if lines != [] {
      var prefix, line := lines[..|lines| - 1], lines[|lines| - 1];
      var s := Run(prefix);
      RunKeepsScript(prefix);
      SwitchKeepsScript(s, line.speaker);
      FeedKeepsScript(Switch(s, line.speaker), line);
      RunLast(lines);
    }
  }

  /** Interleaved mode loses nothing and reorders nothing: the dispatched
      batches, read in order, say exactly the script's non-white-space
      characters in order, each attributed to the speaker of its line. */
  lemma PlanKeepsScript(lines: seq<DialogueLine>)
    requires forall i | 0 <= i < |lines| :: lines[i].speaker != ""
    ensures Voiced(Plan(lines)) == Said(lines)
  {
    RunKeepsScript(lines);
    FlushKeepsScript(Run(lines));
  }

  lemma SoloStepKeepsText(a: Absorbed, text: string)
    ensures NonSpace(Concat(SoloStep(a, text).sent)) + NonSpace(SoloStep(a, text).buffer)
         == NonSpace(Concat(a.sent)) + NonSpace(a.buffer) + NonSpace(text)
  {
    var b := Absorb(a.buffer, text);
    assert SoloStep(a, text) == Absorbed(a.sent + b.sent, b.buffer);
    var x, y, z := NonSpace(Concat(a.sent)), NonSpace(Concat(b.sent)), NonSpace(b.buffer);
    assert NonSpace(Concat(a.sent + b.sent)) == x + y by {
      ConcatAppend(a.sent, b.sent);
      NonSpaceConcat(Concat(a.sent), Concat(b.sent));
    }
    AbsorbKeepsText(a.buffer, text);
    Associative(x, y, z);
    Associative(x, NonSpace(a.buffer), NonSpace(text));
  }

  lemma {:induction false} SoloRunKeepsText(texts: seq<string>)
    ensures NonSpace(Concat(SoloRun(texts).sent)) + NonSpace(SoloRun(texts).buffer) == NonSpace(Concat(texts))
    decreases |texts|
  {
    if texts == [] {
      NothingSent("");
    } else {
      var init, last := texts[..|texts| - 1], texts[|texts| - 1];
      SoloRunKeepsText(init);
      SoloRunLast(texts);
      SoloStepKeepsText(SoloRun(init), last);
      assert NonSpace(Concat(texts)) == NonSpace(Concat(init)) + NonSpace(last) by {
        ConcatLast(texts);
        NonSpaceConcat(Concat(init), last);
      }
    }
  }

  /** Per-speaker mode loses nothing and reorders nothing of a speaker's lines. */
  lemma SoloPlanKeepsText(texts: seq<string>)
    ensures NonSpace(Concat(SoloPlan(texts))) == NonSpace(Concat(texts))
  {
    var s := SoloRun(texts);
    SoloRunKeepsText(texts);
    ConcatAppend(s.sent, Leftover(s.buffer));
    NonSpaceConcat(Concat(s.sent), Concat(Leftover(s.buffer)));
    FirstText(s.buffer);
  }

  // ----- agreement of the two modes -----

  lemma AttributeSplit(speaker: string, x: seq<string>, y: seq<string>)
    ensures Attribute(speaker, x + y) == Attribute(speaker, x) + Attribute(speaker, y)
  {
  }

  /** With one speaker throughout, every interleaved step after the first is a per-speaker step. */
  lemma NextStepSingleSpeaker(a: Absorbed, line: DialogueLine)
    ensures Step(Schedule(Some(line.speaker), a.buffer, Attribute(line.speaker, a.sent)), line)
         == Schedule(Some(line.speaker), SoloStep(a, line.text).buffer, Attribute(line.speaker, SoloStep(a, line.text).sent))
  {
    var s := Schedule(Some(line.speaker), a.buffer, Attribute(line.speaker, a.sent));
    var b := Absorb(a.buffer, line.text);
    assert Switch(s, line.speaker) == s;
    assert Feed(s, line) == Schedule(s.current, b.buffer, s.sent + Attribute(line.speaker, b.sent));
    assert SoloStep(a, line.text) == Absorbed(a.sent + b.sent, b.buffer);
    AttributeSplit(line.speaker, a.sent, b.sent);
  }

  /** The first interleaved step is the first per-speaker step. */
  lemma FirstStepSingleSpeaker(line: DialogueLine)
    ensures Step(Schedule(None, "", []), line)
         == Schedule(Some(line.speaker), SoloStep(Absorbed([], ""), line.text).buffer,
                     Attribute(line.speaker, SoloStep(Absorbed([], ""), line.text).sent))
  {
    var s := Schedule(Some(line.speaker), "", []);
    assert Attribute(line.speaker, []) == [];
    NextStepSingleSpeaker(Absorbed([], ""), line);
    assert Switch(Schedule(None, "", []), line.speaker) == s == Switch(s, line.speaker);
  }

  lemma AttributeLeftover(speaker: string, buffer: string)
    ensures Attribute(speaker, Leftover(buffer)) == if buffer != "" then [Batch(speaker, buffer)] else []
  {
  }

  lemma {:induction false} RunSingleSpeaker(lines: seq<DialogueLine>, speaker: string)
    requires forall i | 0 <= i < |lines| :: lines[i].speaker == speaker
    ensures lines == [] ==> Run(lines) == Schedule(None, "", [])
    ensures lines != [] ==> Run(lines) == Schedule(Some(speaker), SoloRun(Texts(lines)).buffer,
                                                   Attribute(speaker, SoloRun(Texts(lines)).sent))
    decreases |lines|
  {
    if lines != [] {
      var init, line := lines[..|lines| - 1], lines[|lines| - 1];
      assert Texts(lines)[..|lines| - 1] == Texts(init);
      RunSingleSpeaker(init, speaker);
      RunLast(lines);
      SoloRunLast(Texts(lines));
      if init == [] {
        FirstStepSingleSpeaker(line);
      } else {
        NextStepSingleSpeaker(SoloRun(Texts(init)), line);
      }
    }
  }

  /** For a script with one named speaker, the interleaved generator dispatches
      exactly the batches the per-speaker generator dispatches for that speaker. */
  lemma SingleSpeakerAgrees(lines: seq<DialogueLine>, speaker: string)
    requires speaker != ""
    requires forall i | 0 <= i < |lines| :: lines[i].speaker == speaker
    ensures Plan(lines) == Attribute(speaker, SoloPlan(Texts(lines)))
  {
    if lines != [] {
      RunSingleSpeaker(lines, speaker);
      var s := SoloRun(Texts(lines));
      AttributeLeftover(speaker, s.buffer);
      assert Flush(Run(lines)) == Attribute(speaker, Leftover(s.buffer));
      AttributeSplit(speaker, s.sent, Leftover(s.buffer));
    } else {
      NoLinesNoBatches(lines, speaker);
    }
  }

  lemma NoLinesNoBatches(lines: seq<DialogueLine>, speaker: string)
    requires lines == []
    ensures Plan(lines) == Attribute(speaker, SoloPlan(Texts(lines)))
  {
    assert Plan(lines) == [];
    assert Texts(lines) == [];
    assert SoloPlan([]) == [];
  }

  // ----- growth, for the generators' early exit on a thrown error -----

  lemma StepGrows(s: Schedule, line: DialogueLine)
    ensures s.sent <= Step(s, line).sent
  {
    var s1 := Switch(s, line.speaker);
    var a := Absorb(s1.buffer, line.text);
    assert Step(s, line).sent == s1.sent + Attribute(line.speaker, a.sent);
  }

  lemma RunPrefixStep(lines: seq<DialogueLine>, i: nat)
    requires i < |lines|
    ensures Run(lines[..i + 1]) == Step(Run(lines[..i]), lines[i])
  {
    assert lines[..i + 1][..i] == lines[..i];
    RunLast(lines[..i + 1]);
  }

  lemma {:induction false} RunGrows(lines: seq<DialogueLine>, i: nat)
    requires i <= |lines|
    ensures Run(lines[..i]).sent <= Run(lines).sent
    decreases |lines| - i
  {
    if i < |lines| {
      RunGrows(lines, i + 1);
      RunPrefixStep(lines, i);
      StepGrows(Run(lines[..i]), lines[i]);
    } else {
      assert lines[..i] == lines;
    }
  }

  lemma SoloStepGrows(a: Absorbed, text: string)
    ensures a.sent <= SoloStep(a, text).sent
  {
    var b := Absorb(a.buffer, text);
    assert SoloStep(a, text) == Absorbed(a.sent + b.sent, b.buffer);
  }

  lemma SoloRunPrefixStep(texts: seq<string>, i: nat)
    requires i < |texts|
    ensures SoloRun(texts[..i + 1]) == SoloStep(SoloRun(texts[..i]), texts[i])
  {
    assert texts[..i + 1][..i] == texts[..i];
    SoloRunLast(texts[..i + 1]);
  }

  lemma {:induction false} SoloRunGrows(texts: seq<string>, i: nat)
    requires i <= |texts|
    ensures SoloRun(texts[..i]).sent <= SoloRun(texts).sent
    decreases |texts| - i
  {
    if i < |texts| {
      SoloRunGrows(texts, i + 1);
      SoloRunPrefixStep(texts, i);
      SoloStepGrows(SoloRun(texts[..i]), texts[i]);
    } else {
      assert texts[..i] == texts;
    }
  }
}
