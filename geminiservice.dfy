/** The two story generators of `services/geminiService.ts`, run step by step
    as the source runs them and proved to follow the batch schedule of
    Batching. The speech service is a parameter: a function from the request
    (text, voice, seed) to its reply. */
module GeminiService {
  import opened Wrappers
  import opened Strings
  import opened TextSplit
  import opened Types
  import opened JsMaps
  import opened Batching

  /** Raw PCM bytes of one synthesized clip. */
  type Pcm = seq<bv8>

  /** What one speech request comes back with: audio data, a response that
      carries no audio data (`null`), or an error the service threw. */
  datatype Reply = Audio(pcm: Pcm) | Silent | Threw(error: string)

  /** The speech service, from (text, voice, seed) to its reply. */
  type Synthesizer = (string, string, int) -> Reply

  // ----- one request -----

  /** `generateRawAudio`: a blank text is answered with `null` without a request;
      any other text is sent once and the reply, or the thrown error, passed on. */
  function GenerateRawAudio(synth: Synthesizer, text: string, voice: string, seed: int): Reply {
    if IsBlank(text) then Silent else synth(text, voice, seed)
  }

  /** The blank-text guard: for a blank text the reply does not depend on the service at all. */
  lemma BlankTextNeverSent(synth: Synthesizer, other: Synthesizer, text: string, voice: string, seed: int)
    requires IsBlank(text)
    ensures GenerateRawAudio(synth, text, voice, seed) == GenerateRawAudio(other, text, voice, seed) == Silent
  {
  }

  /** The text `processBatch` sends for a configured speaker: the prompt prefix, a space and the batch, trimmed. */
  function Prompt(c: SpeakerConfig, text: string): string {
    Trim(c.promptPrefix + " " + text)
  }

  /** `processBatch` only calls the service for non-blank batches, and the
      prompt it then builds is never blank: the guard of `generateRawAudio`
      never fires for a batch, and the whole batch reaches the request. */
  lemma PromptKeepsBatch(c: SpeakerConfig, text: string)
    requires !IsBlank(text)
    ensures !IsBlank(Prompt(c, text))
    ensures NonSpace(Prompt(c, text)) == NonSpace(c.promptPrefix) + NonSpace(text)
  {
    BlankConcat(c.promptPrefix + " ", text);
    NonSpaceJoin(c.promptPrefix, text);
  }

  /** What the per-speaker `processBatch(text)` makes of one text. */
  function TextReply(c: SpeakerConfig, synth: Synthesizer, text: string): Reply {
    if IsBlank(text) then Silent else GenerateRawAudio(synth, Prompt(c, text), c.voice, c.seed)
  }

  /** What the interleaved `processBatch(text, speaker)` makes of one batch: no
      request for an empty speaker, a blank text or a speaker without a config. */
  function BatchReply(configs: JsMap<SpeakerConfig>, synth: Synthesizer, b: Batch): Reply {
    if b.speaker == "" || IsBlank(b.text) then Silent
    else match Get(configs, b.speaker)
      case None => Silent
      case Some(c) => GenerateRawAudio(synth, Prompt(c, b.text), c.voice, c.seed)
  }

  /** A named, configured speaker's batch is answered exactly as the per-speaker generator answers its text. */
  lemma BatchReplyByConfig(configs: JsMap<SpeakerConfig>, synth: Synthesizer, speaker: string, c: SpeakerConfig, text: string)
    requires speaker != "" && Get(configs, speaker) == Some(c)
    ensures BatchReply(configs, synth, Batch(speaker, text)) == TextReply(c, synth, text)
  {
  }

  /** A batch is answered without a request unless its speaker is named and configured and its text is not blank. */
  lemma UnconfiguredSilent(configs: JsMap<SpeakerConfig>, synth: Synthesizer, b: Batch)
    requires b.speaker == "" || IsBlank(b.text) || b.speaker !in Keys(configs)
    ensures BatchReply(configs, synth, b) == Silent
  {
  }

  // ----- collecting the clips -----

  /** `audioChunks` after one `processBatch`: audio is appended, a reply without
      audio changes nothing, and a thrown error ends the whole generation. */
  function Collect(acc: Result<seq<Pcm>, string>, reply: Reply): Result<seq<Pcm>, string> {
    if acc.Failure? then acc
    else match reply
      case Audio(pcm) => Success(acc.value + [pcm])
      case Silent => acc
      case Threw(e) => Failure(e)
  }

  /** The clips collected from the replies in call order, or the error that stopped the collection. */
  function Gather(replies: seq<Reply>): Result<seq<Pcm>, string>
    decreases |replies|
  {
    if replies == [] then Success([])
    else Collect(Gather(replies[..|replies| - 1]), replies[|replies| - 1])
  }

  /** The audio of the replies, in order: the reference for a collection without errors. */
  function Clips(replies: seq<Reply>): seq<Pcm> {
    if replies == [] then []
    else (if replies[0].Audio? then [replies[0].pcm] else []) + Clips(replies[1..])
  }

  predicate Throws(replies: seq<Reply>) {
    exists i | 0 <= i < |replies| :: replies[i].Threw?
  }

  /** The index of the first thrown error. */
  predicate FirstThrow(replies: seq<Reply>, i: int) {
    0 <= i < |replies| && replies[i].Threw? && forall j | 0 <= j < i :: !replies[j].Threw?
  }

  lemma {:induction false} ClipsAppend(a: seq<Reply>, b: seq<Reply>)
    ensures Clips(a + b) == Clips(a) + Clips(b)
  {
    if a != [] {
      assert (a + b)[1..] == a[1..] + b;
      ClipsAppend(a[1..], b);
    } else {
      assert a + b == b;
    }
  }

  lemma GatherSnoc(replies: seq<Reply>, x: Reply)
    ensures Gather(replies + [x]) == Collect(Gather(replies), x)
  {
    assert (replies + [x])[..|replies|] == replies;
  }

  /** Collecting succeeds exactly when no request threw; it then holds every
      clip in call order, and otherwise carries the first error thrown. */
  lemma {:induction false} GatherMeaning(replies: seq<Reply>)
    ensures Gather(replies).Success? <==> !Throws(replies)
    ensures Gather(replies).Success? ==> Gather(replies).value == Clips(replies)
    ensures Gather(replies).Failure? ==> exists i :: FirstThrow(replies, i) && replies[i].error == Gather(replies).error
    decreases |replies|
  {
    if replies != [] {
      var init, x := replies[..|replies| - 1], replies[|replies| - 1];
      assert replies == init + [x];
      GatherMeaning(init);
      ClipsAppend(init, [x]);
      assert Clips([x]) == if x.Audio? then [x.pcm] else [] by {
        assert [x][1..] == [];
      }
      if Throws(init) {
        var i :| 0 <= i < |init| && init[i].Threw?;
        assert replies[i] == init[i];
      } else if x.Threw? {
        assert FirstThrow(replies, |init|);
      } else {
        forall i | 0 <= i < |replies| ensures !replies[i].Threw? {
          if i < |init| { assert replies[i] == init[i]; }
        }
      }
      if Gather(replies).Failure? && Gather(init).Failure? {
        var i :| FirstThrow(init, i) && init[i].error == Gather(init).error;
        assert replies[i] == init[i];
        assert forall j | 0 <= j < i :: replies[j] == init[j];
        assert FirstThrow(replies, i);
      }
    }
  }

  /** Once collection has failed, later replies cannot change the outcome. */
  lemma {:induction false} GatherFailureSticks(replies: seq<Reply>, more: seq<Reply>)
    requires replies <= more
    requires Gather(replies).Failure?
    ensures Gather(more) == Gather(replies)
    decreases |more|
  {
    if |more| > |replies| {
      var init := more[..|more| - 1];
      assert replies <= init;
      GatherFailureSticks(replies, init);
    } else {
      assert more == replies;
    }
  }

  // ----- the interleaved generator -----

  /** The replies to the batches, in dispatch order. */
  function Replies(configs: JsMap<SpeakerConfig>, synth: Synthesizer, bs: seq<Batch>): (rs: seq<Reply>)
    ensures |rs| == |bs|
    ensures forall i | 0 <= i < |bs| :: rs[i] == BatchReply(configs, synth, bs[i])
  {
    seq(|bs|, i requires 0 <= i < |bs| => BatchReply(configs, synth, bs[i]))
  }

  /** What `generateMultiLineSpeech` settles with: `null` for no lines or when
      no clip came back, the clips in dispatch order otherwise, or the first
      error a request threw. The WAV container around the clips is not modelled. */
  function MultiLineSpeech(lines: seq<DialogueLine>, configs: JsMap<SpeakerConfig>, synth: Synthesizer)
    : Result<Option<seq<Pcm>>, string>
  {
    if lines == [] then Success(None)
    else
      var g := Gather(Replies(configs, synth, Plan(lines)));
      if g.Failure? then Failure(g.error)
      else if g.value == [] then Success(None)
      else Success(Some(g.value))
  }

  /** Dispatching one more batch extends the collection by that batch's reply. */
  lemma Dispatched(configs: JsMap<SpeakerConfig>, synth: Synthesizer, sent: seq<Batch>, b: Batch)
    ensures Gather(Replies(configs, synth, sent + [b])) == Collect(Gather(Replies(configs, synth, sent)), BatchReply(configs, synth, b))
  {
    assert Replies(configs, synth, sent + [b]) == Replies(configs, synth, sent) + [BatchReply(configs, synth, b)];
    GatherSnoc(Replies(configs, synth, sent), BatchReply(configs, synth, b));
  }

  /** A collection that has failed, or has reached its target, is the collection of the target. */
  lemma Settled(configs: JsMap<SpeakerConfig>, synth: Synthesizer, sent: seq<Batch>, target: seq<Batch>)
    requires sent <= target
    requires Gather(Replies(configs, synth, sent)).Failure? || sent == target
    ensures Gather(Replies(configs, synth, target)) == Gather(Replies(configs, synth, sent))
  {
    if sent != target {
      assert Replies(configs, synth, sent) <= Replies(configs, synth, target);
      GatherFailureSticks(Replies(configs, synth, sent), Replies(configs, synth, target));
    }
  }

  /** The interleaved `processBatch(text, speaker)`, applied to the chunks collected so far. */
  method ProcessBatch(configs: JsMap<SpeakerConfig>, synth: Synthesizer, text: string, speaker: string, audioChunks: seq<Pcm>)
    returns (r: Result<seq<Pcm>, string>)
    ensures r == Collect(Success(audioChunks), BatchReply(configs, synth, Batch(speaker, text)))
  {
    r := Success(audioChunks);
    if speaker != "" && !IsBlank(text) {
      var config := Get(configs, speaker);
      if config.Some? {
        var textToSpeak := Prompt(config.value, text);
        var pcm := GenerateRawAudio(synth, textToSpeak, config.value.voice, config.value.seed);
        r := Collect(r, pcm);
      }
    }
  }
  lemma FeedFits(s: Schedule, line: DialogueLine)
    requires |Trim(s.buffer + " " + line.text)| <= MAX_BATCH_CHARS
    ensures Feed(s, line) == Schedule(s.current, Trim(s.buffer + " " + line.text), s.sent)
  {
    assert Absorb(s.buffer, line.text) == Absorbed([], Trim(s.buffer + " " + line.text));
    assert Attribute(line.speaker, []) == [];
  }

  lemma FeedOverflows(s: Schedule, line: DialogueLine)
    requires |Trim(s.buffer + " " + line.text)| > MAX_BATCH_CHARS
    ensures |SplitSafely(line.text, MAX_BATCH_CHARS)| >= 1
    ensures var pieces := SplitSafely(line.text, MAX_BATCH_CHARS);
      Feed(s, line) == Schedule(s.current, pieces[|pieces| - 1],
        (s.sent + Attribute(line.speaker, Leftover(s.buffer))) + Attribute(line.speaker, pieces[..|pieces| - 1]))
  {
    var pieces := SplitSafely(line.text, MAX_BATCH_CHARS);
    SplitSafelyBounded(line.text, MAX_BATCH_CHARS);
    var sent := Leftover(s.buffer) + pieces[..|pieces| - 1];
    assert Absorb(s.buffer, line.text) == Absorbed(sent, pieces[|pieces| - 1]);
    AttributeSplit(line.speaker, Leftover(s.buffer), pieces[..|pieces| - 1]);
    Associative(s.sent, Attribute(line.speaker, Leftover(s.buffer)), Attribute(line.speaker, pieces[..|pieces| - 1]));
  }

  lemma FeedGrows(s: Schedule, line: DialogueLine)
    ensures s.sent <= Feed(s, line).sent
  {
    var a := Absorb(s.buffer, line.text);
    assert Feed(s, line).sent == s.sent + Attribute(line.speaker, a.sent);
  }

  /** One more piece dispatched: the collection over the first `i + 1` pieces. */
  lemma NextPiece(configs: JsMap<SpeakerConfig>, synth: Synthesizer, sent: seq<Batch>, speaker: string, pieces: seq<string>, i: nat)
    requires i < |pieces|
    ensures Gather(Replies(configs, synth, sent + Attribute(speaker, pieces[..i + 1])))
         == Collect(Gather(Replies(configs, synth, sent + Attribute(speaker, pieces[..i]))), BatchReply(configs, synth, Batch(speaker, pieces[i])))
    ensures sent + Attribute(speaker, pieces[..i + 1]) <= sent + Attribute(speaker, pieces)
  {
    assert Attribute(speaker, pieces[..i + 1]) == Attribute(speaker, pieces[..i]) + [Batch(speaker, pieces[i])];
    Associative(sent, Attribute(speaker, pieces[..i]), [Batch(speaker, pieces[i])]);
    Dispatched(configs, synth, sent + Attribute(speaker, pieces[..i]), Batch(speaker, pieces[i]));
  }

  /** The loop of lines 146-148: the pieces dispatched in order for one speaker,
      until the first error. */
  method DispatchPieces(configs: JsMap<SpeakerConfig>, synth: Synthesizer, speaker: string, pieces: seq<string>,
                        ghost sent: seq<Batch>, audioChunks: seq<Pcm>)
    returns (r: Result<seq<Pcm>, string>)
    requires Gather(Replies(configs, synth, sent)) == Success(audioChunks)
    ensures r == Gather(Replies(configs, synth, sent + Attribute(speaker, pieces)))
  {
    r := Success(audioChunks);
    var i := 0;
    assert pieces[..0] == [] && sent + [] == sent;
    while i < |pieces| && r.Success?
      invariant 0 <= i <= |pieces|
      invariant r == Gather(Replies(configs, synth, sent + Attribute(speaker, pieces[..i])))
    {
      NextPiece(configs, synth, sent, speaker, pieces, i);
      r := ProcessBatch(configs, synth, pieces[i], speaker, r.value);
      i := i + 1;
    }
    PiecesSettled(configs, synth, sent, speaker, pieces, i);
  }

  lemma PiecesSettled(configs: JsMap<SpeakerConfig>, synth: Synthesizer, sent: seq<Batch>, speaker: string, pieces: seq<string>, i: nat)
    requires i <= |pieces|
    requires i == |pieces| || Gather(Replies(configs, synth, sent + Attribute(speaker, pieces[..i]))).Failure?
    ensures Gather(Replies(configs, synth, sent + Attribute(speaker, pieces))) == Gather(Replies(configs, synth, sent + Attribute(speaker, pieces[..i])))
  {
    assert Attribute(speaker, pieces[..i]) <= Attribute(speaker, pieces);
    assert i == |pieces| ==> pieces[..i] == pieces;
    Settled(configs, synth, sent + Attribute(speaker, pieces[..i]), sent + Attribute(speaker, pieces));
  }

  /** Lines 126-133: a new speaker flushes the buffer for the previous one and
      starts an empty buffer. */
  method StartLine(configs: JsMap<SpeakerConfig>, synth: Synthesizer,
                   currentSpeaker: Option<string>, currentBatchText: string, ghost sent: seq<Batch>,
                   audioChunks: seq<Pcm>, speaker: string)
    returns (speaker': Option<string>, batchText': string, r: Result<seq<Pcm>, string>)
    requires Gather(Replies(configs, synth, sent)) == Success(audioChunks)
    ensures var s := Switch(Schedule(currentSpeaker, currentBatchText, sent), speaker);
      r == Gather(Replies(configs, synth, s.sent)) && speaker' == s.current && batchText' == s.buffer
  {
    speaker', batchText', r := currentSpeaker, currentBatchText, Success(audioChunks);
    if Some(speaker) != currentSpeaker {
      if currentSpeaker.Some? && currentSpeaker.value != "" && currentBatchText != "" {
        r := ProcessBatch(configs, synth, currentBatchText, currentSpeaker.value, audioChunks);
        Dispatched(configs, synth, sent, Batch(currentSpeaker.value, currentBatchText));
      } else {
        assert sent + [] == sent;
      }
      speaker', batchText' := Some(speaker), "";
    }
  }

  /** What the buffer flush of lines 138-141 leaves collected. */
  lemma FlushedBuffer(configs: JsMap<SpeakerConfig>, synth: Synthesizer, sent: seq<Batch>, speaker: string, buffer: string,
                      audioChunks: seq<Pcm>, r: Result<seq<Pcm>, string>)
    requires Gather(Replies(configs, synth, sent)) == Success(audioChunks)
    requires buffer == "" ==> r == Success(audioChunks)
    requires buffer != "" ==> r == Collect(Success(audioChunks), BatchReply(configs, synth, Batch(speaker, buffer)))
    ensures r == Gather(Replies(configs, synth, sent + Attribute(speaker, Leftover(buffer))))
  {
    AttributeLeftover(speaker, buffer);
    if buffer != "" {
      Dispatched(configs, synth, sent, Batch(speaker, buffer));
    } else {
      assert sent + [] == sent;
    }
  }

  /** Lines 138-150: a line that does not fit dispatches the buffer, is split,
      has every piece but the last dispatched and leaves the last as the buffer. */
  method Overflow(configs: JsMap<SpeakerConfig>, synth: Synthesizer,
                  currentBatchText: string, ghost sent: seq<Batch>, audioChunks: seq<Pcm>, line: DialogueLine)
    returns (batchText': string, r: Result<seq<Pcm>, string>)
    requires Gather(Replies(configs, synth, sent)) == Success(audioChunks)
    ensures |SplitSafely(line.text, MAX_BATCH_CHARS)| >= 1
    ensures var pieces := SplitSafely(line.text, MAX_BATCH_CHARS);
      r == Gather(Replies(configs, synth, (sent + Attribute(line.speaker, Leftover(currentBatchText))) + Attribute(line.speaker, pieces[..|pieces| - 1])))
      && batchText' == pieces[|pieces| - 1]
  {
    r := Success(audioChunks);
    if currentBatchText != "" {
      r := ProcessBatch(configs, synth, currentBatchText, line.speaker, audioChunks);
    }
    FlushedBuffer(configs, synth, sent, line.speaker, currentBatchText, audioChunks, r);
    ghost var flushed := sent + Attribute(line.speaker, Leftover(currentBatchText));
    var lineChunks := SplitTextSafely(line.text, MAX_BATCH_CHARS);
    ghost var target := flushed + Attribute(line.speaker, lineChunks[..|lineChunks| - 1]);
    if r.Success? {
      r := DispatchPieces(configs, synth, line.speaker, lineChunks[..|lineChunks| - 1], flushed, r.value);
      assert r == Gather(Replies(configs, synth, target));
    } else {
      Settled(configs, synth, flushed, target);
      assert r == Gather(Replies(configs, synth, target));
    }
    batchText' := lineChunks[|lineChunks| - 1];
  }

  /** Lines 134-151: the line joins the buffer with a single space if the
      trimmed result fits, and overflows otherwise. */
  method FeedLine(configs: JsMap<SpeakerConfig>, synth: Synthesizer,
                  currentBatchText: string, ghost sent: seq<Batch>, audioChunks: seq<Pcm>, line: DialogueLine)
    returns (batchText': string, r: Result<seq<Pcm>, string>)
    requires Gather(Replies(configs, synth, sent)) == Success(audioChunks)
    ensures var s := Feed(Schedule(Some(line.speaker), currentBatchText, sent), line);
      r == Gather(Replies(configs, synth, s.sent)) && batchText' == s.buffer
  {
    ghost var s := Schedule(Some(line.speaker), currentBatchText, sent);
    var combinedText := Trim(currentBatchText + " " + line.text);
    if |combinedText| <= MAX_BATCH_CHARS {
      FeedFits(s, line);
      return combinedText, Success(audioChunks);
    }
    FeedOverflows(s, line);
    batchText', r := Overflow(configs, synth, currentBatchText, sent, audioChunks, line);
  }

  lemma SwitchNames(s: Schedule, speaker: string)
    ensures Switch(s, speaker) == Schedule(Some(speaker), Switch(s, speaker).buffer, Switch(s, speaker).sent)
  {
  }

  /** One pass of the loop of lines 125-152. */
  method ProcessLine(configs: JsMap<SpeakerConfig>, synth: Synthesizer,
                     currentSpeaker: Option<string>, currentBatchText: string, ghost sent: seq<Batch>,
                     audioChunks: seq<Pcm>, line: DialogueLine)
    returns (speaker': Option<string>, batchText': string, r: Result<seq<Pcm>, string>)
    requires Gather(Replies(configs, synth, sent)) == Success(audioChunks)
    ensures var s := Step(Schedule(currentSpeaker, currentBatchText, sent), line);
      r == Gather(Replies(configs, synth, s.sent)) && (r.Success? ==> speaker' == s.current && batchText' == s.buffer)
  {
    ghost var s := Switch(Schedule(currentSpeaker, currentBatchText, sent), line.speaker);
    SwitchNames(Schedule(currentSpeaker, currentBatchText, sent), line.speaker);
    speaker', batchText', r := StartLine(configs, synth, currentSpeaker, currentBatchText, sent, audioChunks, line.speaker);
    if r.Success? {
      batchText', r := FeedLine(configs, synth, batchText', s.sent, r.value, line);
    } else {
      FeedGrows(s, line);
      Settled(configs, synth, s.sent, Feed(s, line).sent);
    }
  }

  /** Once the collection has failed within the first lines, it stays failed over all of them. */
  lemma Stopped(lines: seq<DialogueLine>, configs: JsMap<SpeakerConfig>, synth: Synthesizer, i: nat)
    requires i <= |lines|
    requires i == |lines| || Gather(Replies(configs, synth, Run(lines[..i]).sent)).Failure?
    ensures Gather(Replies(configs, synth, Run(lines).sent)) == Gather(Replies(configs, synth, Run(lines[..i]).sent))
  {
    RunGrows(lines, i);
    assert i == |lines| ==> lines[..i] == lines;
    Settled(configs, synth, Run(lines[..i]).sent, Run(lines).sent);
  }

  /** The loop of lines 125-152, ended early by the first error a request throws. */
  method WalkLines(configs: JsMap<SpeakerConfig>, synth: Synthesizer, lines: seq<DialogueLine>)
    returns (currentSpeaker: Option<string>, currentBatchText: string, res: Result<seq<Pcm>, string>)
    ensures res == Gather(Replies(configs, synth, Run(lines).sent))
    ensures res.Success? ==> Run(lines).current == currentSpeaker && Run(lines).buffer == currentBatchText
  {
    currentSpeaker, currentBatchText, res := None, "", Success([]);
    var i := 0;
    while i < |lines| && res.Success?
      invariant 0 <= i <= |lines|
      invariant res == Gather(Replies(configs, synth, Run(lines[..i]).sent))
      invariant res.Success? ==> Run(lines[..i]).current == currentSpeaker && Run(lines[..i]).buffer == currentBatchText
    {
      RunPrefixStep(lines, i);
      currentSpeaker, currentBatchText, res :=
        ProcessLine(configs, synth, currentSpeaker, currentBatchText, Run(lines[..i]).sent, res.value, lines[i]);
      i := i + 1;
    }
    Stopped(lines, configs, synth, i);
    if res.Success? {
      assert lines[..i] == lines;
    }
  }

  /** What the final flush of lines 153-155 leaves collected. */
  lemma Finished(configs: JsMap<SpeakerConfig>, synth: Synthesizer, s: Schedule, audioChunks: seq<Pcm>, res: Result<seq<Pcm>, string>)
    requires Gather(Replies(configs, synth, s.sent)) == Success(audioChunks)
    requires Flush(s) == [] ==> res == Success(audioChunks)
    requires Flush(s) != [] ==> res == Collect(Success(audioChunks), BatchReply(configs, synth, Flush(s)[0]))
    ensures res == Gather(Replies(configs, synth, s.sent + Flush(s)))
  {
    if Flush(s) == [] {
      assert s.sent + [] == s.sent;
    } else {
      assert Flush(s) == [Flush(s)[0]];
      Dispatched(configs, synth, s.sent, Flush(s)[0]);
    }
  }

  /** The generator's outcome from the collection over the whole plan. */
  lemma Outcome(lines: seq<DialogueLine>, configs: JsMap<SpeakerConfig>, synth: Synthesizer, res: Result<seq<Pcm>, string>)
    requires lines != []
    requires res == Gather(Replies(configs, synth, Plan(lines)))
    ensures MultiLineSpeech(lines, configs, synth)
         == if res.Failure? then Failure(res.error) else if res.value == [] then Success(None) else Success(Some(res.value))
  {
  }

  /** `generateMultiLineSpeech`, line by line as the source runs it. */
  method GenerateMultiLineSpeech(lines: seq<DialogueLine>, configs: JsMap<SpeakerConfig>, synth: Synthesizer)
    returns (r: Result<Option<seq<Pcm>>, string>)
    ensures r == MultiLineSpeech(lines, configs, synth)
  {
    if |lines| == 0 {
      return Success(None);
    }
    var currentSpeaker, currentBatchText, res := WalkLines(configs, synth, lines);
    ghost var s := Run(lines);
    if res.Success? {
      var audioChunks := res.value;
      if currentSpeaker.Some? && currentSpeaker.value != "" && currentBatchText != "" {
        res := ProcessBatch(configs, synth, currentBatchText, currentSpeaker.value, audioChunks);
      }
      Finished(configs, synth, s, audioChunks, res);
    } else {
      Settled(configs, synth, s.sent, s.sent + Flush(s));
    }
    Outcome(lines, configs, synth, res);
    if res.Failure? {
      r := Failure(res.error);
    } else if |res.value| == 0 {
      r := Success(None);
    } else {
      r := Success(Some(res.value));
    }
  }

  // ----- the per-speaker generator -----

  /** The replies to one speaker's texts, in dispatch order. */
  function TextReplies(c: SpeakerConfig, synth: Synthesizer, texts: seq<string>): (rs: seq<Reply>)
    ensures |rs| == |texts|
    ensures forall i | 0 <= i < |texts| :: rs[i] == TextReply(c, synth, texts[i])
  {
    seq(|texts|, i requires 0 <= i < |texts| => TextReply(c, synth, texts[i]))
  }

  lemma Spoken(c: SpeakerConfig, synth: Synthesizer, sent: seq<string>, text: string)
    ensures Gather(TextReplies(c, synth, sent + [text])) == Collect(Gather(TextReplies(c, synth, sent)), TextReply(c, synth, text))
  {
    assert TextReplies(c, synth, sent + [text]) == TextReplies(c, synth, sent) + [TextReply(c, synth, text)];
    GatherSnoc(TextReplies(c, synth, sent), TextReply(c, synth, text));
  }

  lemma SpokenSettled(c: SpeakerConfig, synth: Synthesizer, sent: seq<string>, target: seq<string>)
    requires sent <= target
    requires Gather(TextReplies(c, synth, sent)).Failure? || sent == target
    ensures Gather(TextReplies(c, synth, target)) == Gather(TextReplies(c, synth, sent))
  {
    if sent != target {
      assert TextReplies(c, synth, sent) <= TextReplies(c, synth, target);
      GatherFailureSticks(TextReplies(c, synth, sent), TextReplies(c, synth, target));
    }
  }

  /** The per-speaker `processBatch(text)` of lines 178-185, applied to the chunks collected so far. */
  method ProcessText(c: SpeakerConfig, synth: Synthesizer, text: string, audioChunks: seq<Pcm>)
    returns (r: Result<seq<Pcm>, string>)
    ensures r == Collect(Success(audioChunks), TextReply(c, synth, text))
  {
    r := Success(audioChunks);
    if !IsBlank(text) {
      var textToSpeak := Prompt(c, text);
      var pcm := GenerateRawAudio(synth, textToSpeak, c.voice, c.seed);
      r := Collect(r, pcm);
    }
  }

  /** The loop of lines 197-199: the pieces dispatched in order, until the first error. */
  method SpeakPieces(c: SpeakerConfig, synth: Synthesizer, pieces: seq<string>, ghost sent: seq<string>, audioChunks: seq<Pcm>)
    returns (r: Result<seq<Pcm>, string>)
    requires Gather(TextReplies(c, synth, sent)) == Success(audioChunks)
    ensures r == Gather(TextReplies(c, synth, sent + pieces))
  {
    r := Success(audioChunks);
    var i := 0;
    assert pieces[..0] == [] && sent + [] == sent;
    while i < |pieces| && r.Success?
      invariant 0 <= i <= |pieces|
      invariant r == Gather(TextReplies(c, synth, sent + pieces[..i]))
    {
      assert pieces[..i + 1] == pieces[..i] + [pieces[i]];
      Associative(sent, pieces[..i], [pieces[i]]);
      Spoken(c, synth, sent + pieces[..i], pieces[i]);
      r := ProcessText(c, synth, pieces[i], r.value);
      i := i + 1;
    }
    assert i == |pieces| ==> pieces[..i] == pieces;
    SpokenSettled(c, synth, sent + pieces[..i], sent + pieces);
  }

  lemma SoloFits(a: Absorbed, text: string)
    requires |Trim(a.buffer + " " + text)| <= MAX_BATCH_CHARS
    ensures SoloStep(a, text) == Absorbed(a.sent, Trim(a.buffer + " " + text))
  {
    assert Absorb(a.buffer, text) == Absorbed([], Trim(a.buffer + " " + text));
    assert a.sent + [] == a.sent;
  }

  lemma SoloOverflows(a: Absorbed, text: string)
    requires |Trim(a.buffer + " " + text)| > MAX_BATCH_CHARS
    ensures |SplitSafely(text, MAX_BATCH_CHARS)| >= 1
    ensures var pieces := SplitSafely(text, MAX_BATCH_CHARS);
      SoloStep(a, text) == Absorbed((a.sent + Leftover(a.buffer)) + pieces[..|pieces| - 1], pieces[|pieces| - 1])
  {
    var pieces := SplitSafely(text, MAX_BATCH_CHARS);
    SplitSafelyBounded(text, MAX_BATCH_CHARS);
    assert Absorb(a.buffer, text) == Absorbed(Leftover(a.buffer) + pieces[..|pieces| - 1], pieces[|pieces| - 1]);
    Associative(a.sent, Leftover(a.buffer), pieces[..|pieces| - 1]);
  }

  /** What the buffer flush of lines 192-195 leaves collected. */
  lemma SpokenBuffer(c: SpeakerConfig, synth: Synthesizer, sent: seq<string>, buffer: string,
                     audioChunks: seq<Pcm>, r: Result<seq<Pcm>, string>)
    requires Gather(TextReplies(c, synth, sent)) == Success(audioChunks)
    requires buffer == "" ==> r == Success(audioChunks)
    requires buffer != "" ==> r == Collect(Success(audioChunks), TextReply(c, synth, buffer))
    ensures r == Gather(TextReplies(c, synth, sent + Leftover(buffer)))
  {
    if buffer != "" {
      Spoken(c, synth, sent, buffer);
    } else {
      assert sent + [] == sent;
    }
  }

  /** Lines 192-200: a text that does not fit dispatches the buffer, is split,
      has every piece but the last dispatched and leaves the last as the buffer. */
  method SoloOverflow(c: SpeakerConfig, synth: Synthesizer, currentBatchText: string, ghost sent: seq<string>,
                      audioChunks: seq<Pcm>, text: string)
    returns (batchText': string, r: Result<seq<Pcm>, string>)
    requires Gather(TextReplies(c, synth, sent)) == Success(audioChunks)
    ensures |SplitSafely(text, MAX_BATCH_CHARS)| >= 1
    ensures var pieces := SplitSafely(text, MAX_BATCH_CHARS);
      r == Gather(TextReplies(c, synth, (sent + Leftover(currentBatchText)) + pieces[..|pieces| - 1]))
      && batchText' == pieces[|pieces| - 1]
  {
    r := Success(audioChunks);
    if currentBatchText != "" {
      r := ProcessText(c, synth, currentBatchText, audioChunks);
    }
    SpokenBuffer(c, synth, sent, currentBatchText, audioChunks, r);
    ghost var flushed := sent + Leftover(currentBatchText);
    var lineChunks := SplitTextSafely(text, MAX_BATCH_CHARS);
    ghost var target := flushed + lineChunks[..|lineChunks| - 1];
    if r.Success? {
      r := SpeakPieces(c, synth, lineChunks[..|lineChunks| - 1], flushed, r.value);
      assert r == Gather(TextReplies(c, synth, target));
    } else {
      SpokenSettled(c, synth, flushed, target);
      assert r == Gather(TextReplies(c, synth, target));
    }
    batchText' := lineChunks[|lineChunks| - 1];
  }

  /** Lines 188-201: the text joins the buffer with a single space if the
      trimmed result fits, and overflows otherwise. */
  method SoloFeed(c: SpeakerConfig, synth: Synthesizer, currentBatchText: string, ghost sent: seq<string>,
                  audioChunks: seq<Pcm>, text: string)
    returns (batchText': string, r: Result<seq<Pcm>, string>)
    requires Gather(TextReplies(c, synth, sent)) == Success(audioChunks)
    ensures var a := SoloStep(Absorbed(sent, currentBatchText), text);
      r == Gather(TextReplies(c, synth, a.sent)) && (r.Success? ==> batchText' == a.buffer)
  {
    ghost var a := Absorbed(sent, currentBatchText);
    var combinedText := Trim(currentBatchText + " " + text);
    if |combinedText| <= MAX_BATCH_CHARS {
      SoloFits(a, text);
      return combinedText, Success(audioChunks);
    }
    SoloOverflows(a, text);
    batchText', r := SoloOverflow(c, synth, currentBatchText, sent, audioChunks, text);
  }

  /** Once the collection has failed within the first texts, it stays failed over all of them. */
  lemma SoloStopped(c: SpeakerConfig, synth: Synthesizer, texts: seq<string>, i: nat)
    requires i <= |texts|
    requires i == |texts| || Gather(TextReplies(c, synth, SoloRun(texts[..i]).sent)).Failure?
    ensures Gather(TextReplies(c, synth, SoloRun(texts).sent)) == Gather(TextReplies(c, synth, SoloRun(texts[..i]).sent))
  {
    SoloRunGrows(texts, i);
    assert i == |texts| ==> texts[..i] == texts;
    SpokenSettled(c, synth, SoloRun(texts[..i]).sent, SoloRun(texts).sent);
  }

  /** One speaker's pass of lines 174-206: the clips collected for its lines, or the first error. */
  method SpeakLines(c: SpeakerConfig, synth: Synthesizer, lines: seq<DialogueLine>) returns (r: Result<seq<Pcm>, string>)
    ensures r == Gather(TextReplies(c, synth, SoloPlan(Texts(lines))))
  {
    ghost var texts := Texts(lines);
    var currentBatchText := "";
    r := Success([]);
    var i := 0;
    while i < |lines| && r.Success?
      invariant 0 <= i <= |lines|
      invariant r == Gather(TextReplies(c, synth, SoloRun(texts[..i]).sent))
      invariant r.Success? ==> SoloRun(texts[..i]).buffer == currentBatchText
    {
      SoloRunPrefixStep(texts, i);
      currentBatchText, r := SoloFeed(c, synth, currentBatchText, SoloRun(texts[..i]).sent, r.value, lines[i].text);
      i := i + 1;
    }
    SoloStopped(c, synth, texts, i);
    ghost var a := SoloRun(texts);
    if r.Success? {
      assert texts[..i] == texts;
      var audioChunks := r.value;
      if currentBatchText != "" {
        r := ProcessText(c, synth, currentBatchText, audioChunks);
      }
      SpokenBuffer(c, synth, a.sent, currentBatchText, audioChunks, r);
    } else {
      SpokenSettled(c, synth, a.sent, a.sent + Leftover(a.buffer));
    }
  }

  /** `dialogueLines.filter(line => line.speaker === speaker)`. */
  function LinesOf(lines: seq<DialogueLine>, speaker: string): (r: seq<DialogueLine>)
    ensures |r| <= |lines|
    ensures forall i | 0 <= i < |r| :: r[i].speaker == speaker && r[i] in lines
    ensures forall i | 0 <= i < |lines| && lines[i].speaker == speaker :: lines[i] in r
    decreases |lines|
  {
    if lines == [] then []
    else
      var init, last := lines[..|lines| - 1], lines[|lines| - 1];
      assert forall l | l in init :: l in lines;
      LinesOf(init, speaker) + (if last.speaker == speaker then [last] else [])
  }

  /** What one configured speaker's pass yields: the clips for its lines, or the first error. */
  function SpeakerClips(lines: seq<DialogueLine>, speaker: string, c: SpeakerConfig, synth: Synthesizer): Result<seq<Pcm>, string> {
    Gather(TextReplies(c, synth, SoloPlan(Texts(LinesOf(lines, speaker)))))
  }

  /** One pass of the loop of lines 170-211 over the map built so far. */
  function SeparateStep(acc: Result<JsMap<seq<Pcm>>, string>, lines: seq<DialogueLine>, e: Entry<SpeakerConfig>, synth: Synthesizer)
    : Result<JsMap<seq<Pcm>>, string>
  {
    if acc.Failure? || LinesOf(lines, e.key) == [] then acc
    else
      var g := SpeakerClips(lines, e.key, e.value, synth);
      if g.Failure? then Failure(g.error)
      else if g.value == [] then acc
      else Success(Set(acc.value, e.key, g.value))
  }

  /** What `generateSeparateSpeakerSpeech` settles with: a map from each speaker
      to its clips, in config order, or the first error a request threw. */
  function SeparateSpeech(lines: seq<DialogueLine>, configs: seq<Entry<SpeakerConfig>>, synth: Synthesizer)
    : Result<JsMap<seq<Pcm>>, string>
    decreases |configs|
  {
    if configs == [] then Success([])
    else SeparateStep(SeparateSpeech(lines, configs[..|configs| - 1], synth), lines, configs[|configs| - 1], synth)
  }

  lemma SeparatePrefixStep(lines: seq<DialogueLine>, configs: seq<Entry<SpeakerConfig>>, synth: Synthesizer, k: nat)
    requires k < |configs|
    ensures SeparateSpeech(lines, configs[..k + 1], synth) == SeparateStep(SeparateSpeech(lines, configs[..k], synth), lines, configs[k], synth)
  {
    assert configs[..k + 1][..k] == configs[..k];
  }

  lemma {:induction false} SeparateStopped(lines: seq<DialogueLine>, configs: seq<Entry<SpeakerConfig>>, synth: Synthesizer, k: nat)
    requires k <= |configs|
    requires k == |configs| || SeparateSpeech(lines, configs[..k], synth).Failure?
    ensures SeparateSpeech(lines, configs, synth) == SeparateSpeech(lines, configs[..k], synth)
    decreases |configs| - k
  {
    if k < |configs| {
      SeparatePrefixStep(lines, configs, synth, k);
      SeparateStopped(lines, configs, synth, k + 1);
    } else {
      assert configs[..k] == configs;
    }
  }

  lemma PassOutcome(m: JsMap<seq<Pcm>>, lines: seq<DialogueLine>, e: Entry<SpeakerConfig>, synth: Synthesizer,
                    audio: Result<seq<Pcm>, string>)
    requires LinesOf(lines, e.key) != []
    requires audio == SpeakerClips(lines, e.key, e.value, synth)
    ensures SeparateStep(Success(m), lines, e, synth)
         == if audio.Failure? then Failure(audio.error) else if audio.value == [] then Success(m) else Success(Set(m, e.key, audio.value))
  {
  }

  /** Lines 171-210: one configured speaker's lines spoken, and its clips
      added to the map when there are any. */
  method SpeakerPass(speakerAudioMap: JsMap<seq<Pcm>>, lines: seq<DialogueLine>, speaker: string, config: SpeakerConfig,
                     synth: Synthesizer)
    returns (r: Result<JsMap<seq<Pcm>>, string>)
    ensures r == SeparateStep(Success(speakerAudioMap), lines, Entry(speaker, config), synth)
  {
    r := Success(speakerAudioMap);
    var speakerLines := LinesOf(lines, speaker);
    if |speakerLines| > 0 {
      var audio := SpeakLines(config, synth, speakerLines);
      PassOutcome(speakerAudioMap, lines, Entry(speaker, config), synth, audio);
      if audio.Failure? {
        r := Failure(audio.error);
      } else if |audio.value| > 0 {
        r := Success(Set(speakerAudioMap, speaker, audio.value));
      }
    }
  }

  /** `generateSeparateSpeakerSpeech`, speaker by speaker in config order as the source runs it. */
  method GenerateSeparateSpeakerSpeech(lines: seq<DialogueLine>, configs: JsMap<SpeakerConfig>, synth: Synthesizer)
    returns (r: Result<JsMap<seq<Pcm>>, string>)
    ensures r == SeparateSpeech(lines, configs, synth)
  {
    r := Success([]);
    var k := 0;
    while k < |configs| && r.Success?
      invariant 0 <= k <= |configs|
      invariant r == SeparateSpeech(lines, configs[..k], synth)
    {
      SeparatePrefixStep(lines, configs, synth, k);
      r := SpeakerPass(r.value, lines, configs[k].key, configs[k].value, synth);
      k := k + 1;
    }
    SeparateStopped(lines, configs, synth, k);
  }

  // ----- what the generators promise -----

  /** The interleaved generator's result read off the replies: it fails exactly
      when a request threw, with the first thrown error; it settles with `null`
      exactly when no reply carried audio; otherwise it holds every clip, in
      dispatch order. */
  lemma MultiLineMeaning(lines: seq<DialogueLine>, configs: JsMap<SpeakerConfig>, synth: Synthesizer)
    requires lines != []
    ensures var rs := Replies(configs, synth, Plan(lines));
            var out := MultiLineSpeech(lines, configs, synth);
            && (out.Failure? <==> Throws(rs))
            && (out == Success(None) <==> !Throws(rs) && Clips(rs) == [])
            && (out.Success? && out.value.Some? ==> out.value.value == Clips(rs))
            && (out.Failure? ==> exists i :: FirstThrow(rs, i) && rs[i].error == out.error)
  {
    GatherMeaning(Replies(configs, synth, Plan(lines)));
  }

  /** Every request the interleaved generator makes is for a batch of at most
      1800 characters by a named, configured speaker; it carries that speaker's
      voice and seed and a prompt that is not blank and holds the whole batch. */
  lemma RequestsFollowPlan(lines: seq<DialogueLine>, configs: JsMap<SpeakerConfig>, synth: Synthesizer, i: int)
    requires 0 <= i < |Plan(lines)|
    ensures |Plan(lines)[i].text| <= MAX_BATCH_CHARS
    ensures var b := Plan(lines)[i];
            var r := Replies(configs, synth, Plan(lines))[i];
            if b.speaker != "" && !IsBlank(b.text) && b.speaker in Keys(configs) then
              var c := Get(configs, b.speaker).value;
              && !IsBlank(Prompt(c, b.text))
              && NonSpace(Prompt(c, b.text)) == NonSpace(c.promptPrefix) + NonSpace(b.text)
              && r == synth(Prompt(c, b.text), c.voice, c.seed)
            else r == Silent
  {
    PlanBounded(lines);
    assert Plan(lines)[i] in Plan(lines);
    var b := Plan(lines)[i];
    if b.speaker != "" && !IsBlank(b.text) && b.speaker in Keys(configs) {
      PromptKeepsBatch(Get(configs, b.speaker).value, b.text);
    }
  }

  /** The lines a speaker has, when every line is theirs. */
  lemma {:induction false} LinesOfAll(lines: seq<DialogueLine>, speaker: string)
    requires forall i | 0 <= i < |lines| :: lines[i].speaker == speaker
    ensures LinesOf(lines, speaker) == lines
    decreases |lines|
  {
    if lines != [] {
      var init := lines[..|lines| - 1];
      LinesOfAll(init, speaker);
      assert lines == init + [lines[|lines| - 1]];
    }
  }

  /** Filtering keeps the script's order: the lines of a script made of two
      parts are the first part's lines followed by the second part's. */
  lemma {:induction false} LinesOfAppend(a: seq<DialogueLine>, b: seq<DialogueLine>, speaker: string)
    ensures LinesOf(a + b, speaker) == LinesOf(a, speaker) + LinesOf(b, speaker)
    decreases |b|
  {
    if b == [] {
      assert a + b == a;
    } else {
      var init, last := b[..|b| - 1], b[|b| - 1];
      LinesOfAppend(a, init, speaker);
      assert (a + b)[..|a + b| - 1] == a + init;
      assert (a + b)[|a + b| - 1] == last;
    }
  }

  /** For a script spoken by one named, configured speaker the two generators
      make the same requests in the same order, and the interleaved one
      settles with exactly the clips the per-speaker one collects for them. */
  lemma ModesAgree(lines: seq<DialogueLine>, configs: JsMap<SpeakerConfig>, synth: Synthesizer, speaker: string, c: SpeakerConfig)
    requires speaker != "" && Get(configs, speaker) == Some(c)
    requires forall i | 0 <= i < |lines| :: lines[i].speaker == speaker
    ensures Replies(configs, synth, Plan(lines)) == TextReplies(c, synth, SoloPlan(Texts(LinesOf(lines, speaker))))
    ensures lines != [] ==>
              var g := SpeakerClips(lines, speaker, c, synth);
              MultiLineSpeech(lines, configs, synth)
                == if g.Failure? then Failure(g.error) else if g.value == [] then Success(None) else Success(Some(g.value))
  {
    LinesOfAll(lines, speaker);
    SingleSpeakerAgrees(lines, speaker);
    var texts := SoloPlan(Texts(lines));
    forall i | 0 <= i < |texts|
      ensures Replies(configs, synth, Plan(lines))[i] == TextReplies(c, synth, texts)[i]
    {
      BatchReplyByConfig(configs, synth, speaker, c, texts[i]);
    }
  }

  /** What the per-speaker map holds for key `k`: that speaker's clips when it
      is configured, has lines, and at least one clip came back. */
  function Produced(lines: seq<DialogueLine>, configs: seq<Entry<SpeakerConfig>>, synth: Synthesizer, k: string): Option<seq<Pcm>> {
    match Get(configs, k)
    case None => None
    case Some(c) =>
      if LinesOf(lines, k) == [] then None
      else
        var g := SpeakerClips(lines, k, c, synth);
        if g.Success? && g.value != [] then Some(g.value) else None
  }

  /** A successful per-speaker run maps every key to what that speaker produced, and nothing else. */
  lemma {:induction false} SeparateKeys(lines: seq<DialogueLine>, configs: seq<Entry<SpeakerConfig>>, synth: Synthesizer, k: string)
    requires DistinctKeys(configs)
    requires SeparateSpeech(lines, configs, synth).Success?
    ensures Get(SeparateSpeech(lines, configs, synth).value, k) == Produced(lines, configs, synth, k)
    decreases |configs|
  {
    if configs != [] {
      var init, e := configs[..|configs| - 1], configs[|configs| - 1];
      assert configs == init + [e];
      var acc := SeparateSpeech(lines, init, synth);
      assert DistinctKeys(init) by {
        forall i, j | 0 <= i < j < |init| ensures init[i].key != init[j].key {
          assert init[i] == configs[i] && init[j] == configs[j];
        }
      }
      SeparateKeys(lines, init, synth, k);
      SeparateKeysStep(lines, init, e, synth, acc, k);
    }
  }

  lemma SeparateKeysStep(lines: seq<DialogueLine>, init: seq<Entry<SpeakerConfig>>, e: Entry<SpeakerConfig>, synth: Synthesizer,
                         acc: Result<JsMap<seq<Pcm>>, string>, k: string)
    requires DistinctKeys(init + [e])
    requires SeparateStep(acc, lines, e, synth).Success?
    requires acc.Success? ==> Get(acc.value, k) == Produced(lines, init, synth, k)
    ensures Get(SeparateStep(acc, lines, e, synth).value, k) == Produced(lines, init + [e], synth, k)
  {
    GetSnoc(init, e, k);
  }

  /** A key's position among the configurations: the order the map must follow. */
  predicate FollowsConfigs(m: seq<Entry<seq<Pcm>>>, configs: seq<Entry<SpeakerConfig>>) {
    && (forall i | 0 <= i < |m| :: m[i].key in Keys(configs))
    && (forall i, j | 0 <= i < j < |m| :: Find(configs, m[i].key) < Find(configs, m[j].key))
  }

  /** Adding the next configuration keeps the positions of the earlier keys. */
  lemma FollowsSnoc(m: seq<Entry<seq<Pcm>>>, init: seq<Entry<SpeakerConfig>>, e: Entry<SpeakerConfig>)
    requires DistinctKeys(init + [e])
    requires FollowsConfigs(m, init)
    ensures FollowsConfigs(m, init + [e])
    ensures forall i | 0 <= i < |m| :: m[i].key != e.key
  {
    GetSnoc(init, e, e.key);
    forall i | 0 <= i < |m|
      ensures m[i].key != e.key && Find(init + [e], m[i].key) == Find(init, m[i].key)
    {
      FindSnoc(init, e, m[i].key);
    }
    assert forall x | x in Keys(init) :: x in Keys(init + [e]);
  }

  /** Appending the clips of the last configured speaker keeps the map in configuration order. */
  lemma FollowsAppend(m: JsMap<seq<Pcm>>, init: seq<Entry<SpeakerConfig>>, e: Entry<SpeakerConfig>, v: seq<Pcm>)
    requires DistinctKeys(init + [e])
    requires FollowsConfigs(m, init)
    ensures FollowsConfigs(Set(m, e.key, v), init + [e])
  {
    var configs := init + [e];
    FollowsSnoc(m, init, e);
    FindSnoc(init, e, e.key);
    assert e.key !in Keys(m);
    var r := m + [Entry(e.key, v)];
    assert Set(m, e.key, v) == r;
    assert Keys(configs)[|init|] == e.key;
    assert forall i | 0 <= i < |m| :: r[i] == m[i];
  }

  /** The map's keys appear in the order of the configurations, as `Map` insertion order dictates. */
  lemma {:induction false} SeparateOrder(lines: seq<DialogueLine>, configs: seq<Entry<SpeakerConfig>>, synth: Synthesizer)
    requires DistinctKeys(configs)
    requires SeparateSpeech(lines, configs, synth).Success?
    ensures FollowsConfigs(SeparateSpeech(lines, configs, synth).value, configs)
    decreases |configs|
  {
    if configs != [] {
      var init, e := configs[..|configs| - 1], configs[|configs| - 1];
      assert configs == init + [e];
      SeparateOrder(lines, init, synth);
      var m := SeparateSpeech(lines, init, synth).value;
      if SeparateSpeech(lines, configs, synth).value == m {
        FollowsSnoc(m, init, e);
      } else {
        FollowsAppend(m, init, e, SpeakerClips(lines, e.key, e.value, synth).value);
      }
    }
  }

  /** Whether one configured speaker's pass throws. */
  predicate PassThrows(lines: seq<DialogueLine>, e: Entry<SpeakerConfig>, synth: Synthesizer) {
    LinesOf(lines, e.key) != [] && SpeakerClips(lines, e.key, e.value, synth).Failure?
  }

  /** Whether the `i`th configured speaker is the first whose pass throws. */
  predicate FirstPassThrow(lines: seq<DialogueLine>, configs: seq<Entry<SpeakerConfig>>, synth: Synthesizer, i: int) {
    0 <= i < |configs| && PassThrows(lines, configs[i], synth)
    && forall j | 0 <= j < i :: !PassThrows(lines, configs[j], synth)
  }

  /** A first throwing pass among the earlier configurations stays first with one more. */
  lemma FirstPassSnoc(lines: seq<DialogueLine>, init: seq<Entry<SpeakerConfig>>, e: Entry<SpeakerConfig>, synth: Synthesizer, i: int)
    requires FirstPassThrow(lines, init, synth, i)
    ensures FirstPassThrow(lines, init + [e], synth, i)
  {
    assert forall j | 0 <= j <= i :: (init + [e])[j] == init[j];
  }

  /** With no throwing pass among the earlier configurations, a throwing last one is the first. */
  lemma LastPassFirst(lines: seq<DialogueLine>, init: seq<Entry<SpeakerConfig>>, e: Entry<SpeakerConfig>, synth: Synthesizer)
    requires forall j | 0 <= j < |init| :: !PassThrows(lines, init[j], synth)
    requires PassThrows(lines, e, synth)
    ensures FirstPassThrow(lines, init + [e], synth, |init|)
  {
    assert forall j | 0 <= j < |init| :: (init + [e])[j] == init[j];
  }

  lemma NoPassSnoc(lines: seq<DialogueLine>, init: seq<Entry<SpeakerConfig>>, e: Entry<SpeakerConfig>, synth: Synthesizer)
    requires forall j | 0 <= j < |init| :: !PassThrows(lines, init[j], synth)
    ensures (forall j | 0 <= j < |init| + 1 :: !PassThrows(lines, (init + [e])[j], synth)) <==> !PassThrows(lines, e, synth)
  {
    assert forall j | 0 <= j < |init| :: (init + [e])[j] == init[j];
    assert (init + [e])[|init|] == e;
  }

  /** The per-speaker generator fails exactly when some speaker's pass throws,
      and then with the error of the first such speaker in configuration order. */
  lemma {:induction false} SeparateFailure(lines: seq<DialogueLine>, configs: seq<Entry<SpeakerConfig>>, synth: Synthesizer)
    ensures SeparateSpeech(lines, configs, synth).Success? <==> forall i | 0 <= i < |configs| :: !PassThrows(lines, configs[i], synth)
    ensures SeparateSpeech(lines, configs, synth).Failure? ==>
              exists i :: FirstPassThrow(lines, configs, synth, i)
                && SpeakerClips(lines, configs[i].key, configs[i].value, synth).error == SeparateSpeech(lines, configs, synth).error
    decreases |configs|
  {
    if configs != [] {
      var init, e := configs[..|configs| - 1], configs[|configs| - 1];
      assert configs == init + [e];
      SeparateFailure(lines, init, synth);
      SeparateFailureStep(lines, init, e, synth, SeparateSpeech(lines, init, synth));
    }
  }

  lemma SeparateFailureStep(lines: seq<DialogueLine>, init: seq<Entry<SpeakerConfig>>, e: Entry<SpeakerConfig>, synth: Synthesizer,
                            acc: Result<JsMap<seq<Pcm>>, string>)
    requires acc.Success? <==> forall i | 0 <= i < |init| :: !PassThrows(lines, init[i], synth)
    requires acc.Failure? ==>
               exists i :: FirstPassThrow(lines, init, synth, i)
                 && SpeakerClips(lines, init[i].key, init[i].value, synth).error == acc.error
    ensures var r, configs := SeparateStep(acc, lines, e, synth), init + [e];
      && (r.Success? <==> forall i | 0 <= i < |configs| :: !PassThrows(lines, configs[i], synth))
      && (r.Failure? ==>
            exists i :: FirstPassThrow(lines, configs, synth, i)
              && SpeakerClips(lines, configs[i].key, configs[i].value, synth).error == r.error)
  {
    var configs := init + [e];
    if acc.Failure? {
      var i :| FirstPassThrow(lines, init, synth, i)
        && SpeakerClips(lines, init[i].key, init[i].value, synth).error == acc.error;
      FirstPassSnoc(lines, init, e, synth, i);
      assert configs[i] == init[i];
      assert PassThrows(lines, configs[i], synth);
    } else {
      NoPassSnoc(lines, init, e, synth);
      if PassThrows(lines, e, synth) {
        LastPassFirst(lines, init, e, synth);
        assert configs[|init|] == e;
      }
    }
  }
}
