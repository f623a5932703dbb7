/** The script parser of `App.tsx`: the script is split into raw lines, and
    every line that is not blank becomes a dialogue line, either tagged
    `Name: text` or spoken by the last speaker seen. */
module ScriptParser {
  import opened Wrappers
  import opened Strings
  import opened Types
  import opened JsMaps

  /** The two groups of `/^([^:]+):\s*(.*)$/` on a trimmed line, or no match. */
  datatype TagMatch = Tagged(name: string, rest: string) | Untagged

  predicate NoLineTerminator(s: string) {
    forall i | 0 <= i < |s| :: !IsLineTerminator(s[i])
  }

  /** `line.match(/^([^:]+):\s*(.*)$/)`. The first group can only be everything
      before the first colon; the greedy `\s*` then takes all the white space
      after it, and `(.*)$` needs what is left to hold no line terminator. */
  function MatchTag(line: string): TagMatch {
    var k := IndexOf(line, ':');
    if k <= 0 then Untagged
    else
      var rest := TrimStart(line[k + 1..]);
      if NoLineTerminator(rest) then Tagged(line[..k], rest) else Untagged
  }

  /** A match splits the line into a non-empty, colon-free name (the text
      before the first colon), the colon, white space, and a remainder that
      holds no line terminator and does not start with white space. */
  lemma MatchTagSound(line: string)
    requires MatchTag(line).Tagged?
    ensures var m := MatchTag(line);
            && m.name != [] && ':' !in m.name
            && |m.name| + 1 + |m.rest| <= |line|
            && m.name == line[..|m.name|] && line[|m.name|] == ':' && m.rest == line[|line| - |m.rest|..]
            && IsBlank(line[|m.name| + 1..|line| - |m.rest|])
            && NoLineTerminator(m.rest)
            && (m.rest == [] || !IsSpace(m.rest[0]))
  {
    TaggedShape(line, MatchTag(line).name, MatchTag(line).rest);
  }

  lemma TaggedShape(line: string, name: string, rest: string)
    requires MatchTag(line) == Tagged(name, rest)
    ensures name != [] && ':' !in name
    ensures |name| + 1 + |rest| <= |line|
    ensures name == line[..|name|] && line[|name|] == ':' && rest == line[|line| - |rest|..]
    ensures IsBlank(line[|name| + 1..|line| - |rest|])
    ensures NoLineTerminator(rest)
    ensures rest == [] || !IsSpace(rest[0])
  {
    var k := IndexOf(line, ':');
    assert name == line[..k] && rest == TrimStart(line[k + 1..]);
    TagParts(line, k, rest);
  }

  lemma TagParts(line: string, k: int, rest: string)
    requires 0 <= k < |line| && rest == TrimStart(line[k + 1..])
    ensures k + 1 + |rest| <= |line|
    ensures rest == line[|line| - |rest|..]
    ensures IsBlank(line[k + 1..|line| - |rest|])
  {
    var after := line[k + 1..];
    assert rest == after[|after| - |rest|..];
    forall i | 0 <= i < |rest| ensures rest[i] == line[|line| - |rest| + i] {
      assert rest[i] == after[|after| - |rest| + i];
    }
    var gap := line[k + 1..|line| - |rest|];
    forall i | 0 <= i < |gap| ensures IsSpace(gap[i]) {
      assert gap[i] == after[..|after| - |rest|][i];
    }
  }

  /** Every split of a line into a colon-free name, a colon, white space and a
      remainder without line terminators is found by the match, with the
      white space after the colon left out of the second group. */
  lemma MatchTagFinds(name: string, after: string)
    requires name != [] && ':' !in name
    requires NoLineTerminator(TrimStart(after))
    ensures MatchTag(name + [':'] + after) == Tagged(name, TrimStart(after))
  {
    var line := name + [':'] + after;
    var k := IndexOf(line, ':');
    assert line[|name|] == ':';
    assert line[..|name|] == name;
    assert k == |name|;
    assert line[k + 1..] == after;
  }

  /** A line whose colon is the first character, or that has none, is not tagged. */
  lemma NoNameUntagged(line: string)
    requires ':' !in line || (|line| > 0 && line[0] == ':')
    ensures MatchTag(line) == Untagged
  {
  }

  /** The parser's state after some raw lines: the dialogue lines so far, the
      speakers seen (a `Set`, in insertion order) and `lastSpeaker`. */
  datatype Parsed = Parsed(lines: seq<DialogueLine>, speakers: seq<string>, lastSpeaker: Option<string>)

  /** `` `${index}-${currentSpeaker}` ``. */
  function LineId(index: nat, speaker: string): string {
    NatToString(index) + "-" + speaker
  }

  /** The speaker a line without a tag inherits: `lastSpeaker`, or `Speaker 1` when it is falsy. */
  function Inherited(lastSpeaker: Option<string>): string {
    if lastSpeaker.None? || lastSpeaker.value == "" then "Speaker 1" else lastSpeaker.value
  }

  /** The speaker and text read off a trimmed, non-blank line. */
  datatype Reading = Reading(speaker: string, text: string)

  function Read(trimmed: string, lastSpeaker: Option<string>): Reading {
    match MatchTag(trimmed)
    case Tagged(name, rest) => Reading(Trim(name), Trim(rest))
    case Untagged => Reading(Inherited(lastSpeaker), trimmed)
  }

  /** Lines 137-140 after a non-blank line was read: the line is emitted only
      when both its speaker and its text are non-empty; `lastSpeaker` is the
      speaker read either way. */
  function Emit(p: Parsed, r: Reading, index: nat): Parsed {
    if r.speaker != "" && r.text != "" then
      Parsed(p.lines + [DialogueLine(LineId(index, r.speaker), r.speaker, r.text)], SetAdd(p.speakers, r.speaker), Some(r.speaker))
    else
      Parsed(p.lines, p.speakers, Some(r.speaker))
  }

  /** One raw line with its index, as the body of the `forEach` of lines 117-140 handles it. */
  function ParseLine(p: Parsed, line: string, index: nat): Parsed {
    var trimmed := Trim(line);
    if trimmed == "" then p else Emit(p, Read(trimmed, p.lastSpeaker), index)
  }

  /** The parser's state after the raw lines `raw`, taken in order. */
  function ParseLines(raw: seq<string>): Parsed
    decreases |raw|
  {
    if raw == [] then Parsed([], [], None)
    else ParseLine(ParseLines(raw[..|raw| - 1]), raw[|raw| - 1], |raw| - 1)
  }

  /** What the parser makes of a whole script. */
  function Parse(scriptText: string): Parsed {
    ParseLines(Split(scriptText, '\n'))
  }

  lemma ParsePrefixStep(raw: seq<string>, i: nat)
    requires i < |raw|
    ensures ParseLines(raw[..i + 1]) == ParseLine(ParseLines(raw[..i]), raw[i], i)
  {
    assert raw[..i + 1][..i] == raw[..i];
  }

  /** The parser of lines 116-141: every raw line with its index, mutating
      `lastSpeaker` and pushing into the lines and the speaker set. */
  method ParseScript(scriptText: string) returns (newDialogueLines: seq<DialogueLine>, newSpeakers: seq<string>)
    ensures newDialogueLines == Parse(scriptText).lines
    ensures newSpeakers == Parse(scriptText).speakers
  {
    var lines := Split(scriptText, '\n');
    newDialogueLines, newSpeakers := [], [];
    var lastSpeaker: Option<string> := None;
    for index := 0 to |lines|
      invariant Parsed(newDialogueLines, newSpeakers, lastSpeaker) == ParseLines(lines[..index])
    {
      ParsePrefixStep(lines, index);
      var trimmedLine := Trim(lines[index]);
      if trimmedLine != "" {
        var match_ := MatchTag(trimmedLine);
        var currentSpeaker, text;
        if match_.Tagged? {
          currentSpeaker := Trim(match_.name);
          text := Trim(match_.rest);
          lastSpeaker := Some(currentSpeaker);
        } else {
          if lastSpeaker.None? || lastSpeaker.value == "" {
            lastSpeaker := Some("Speaker 1");
          }
          currentSpeaker := lastSpeaker.value;
          text := trimmedLine;
        }
        if currentSpeaker != "" && text != "" {
          newDialogueLines := newDialogueLines + [DialogueLine(LineId(index, currentSpeaker), currentSpeaker, text)];
          if currentSpeaker !in newSpeakers {
            newSpeakers := newSpeakers + [currentSpeaker];
          }
        }
      }
    }
    assert lines[..|lines|] == lines;
  }

  // ----- what the parser promises -----

  /** The speakers of some dialogue lines, in line order. */
  function SpeakerNames(lines: seq<DialogueLine>): (r: seq<string>)
    ensures |r| == |lines|
    ensures forall i | 0 <= i < |lines| :: r[i] == lines[i].speaker
  {
    seq(|lines|, i requires 0 <= i < |lines| => lines[i].speaker)
  }

  /** A tagged trimmed line always names a speaker: the name starts with the line's first, non-white-space character. */
  lemma TaggedNamed(trimmed: string)
    requires trimmed != [] && !IsSpace(trimmed[0])
    requires MatchTag(trimmed).Tagged?
    ensures Trim(MatchTag(trimmed).name) != ""
  {
    MatchTagSound(trimmed);
    var name := MatchTag(trimmed).name;
    assert name[0] == trimmed[0];
  }

  /** A dialogue line as the parser emits it: a named speaker among the speakers
      seen, and a text that is not empty and neither starts nor ends with white space. */
  predicate WellFormed(l: DialogueLine, speakers: seq<string>) {
    l.speaker != "" && l.text != "" && !IsSpace(l.text[0]) && !IsSpace(l.text[|l.text| - 1]) && l.speaker in speakers
  }

  /** What a trimmed, non-blank line reads as: a named speaker and a text without surrounding white space. */
  lemma ReadingNamed(trimmed: string, lastSpeaker: Option<string>)
    requires trimmed != [] && !IsSpace(trimmed[0]) && !IsSpace(trimmed[|trimmed| - 1])
    ensures Read(trimmed, lastSpeaker).speaker != ""
    ensures var t := Read(trimmed, lastSpeaker).text; t == [] || (!IsSpace(t[0]) && !IsSpace(t[|t| - 1]))
  {
    if MatchTag(trimmed).Tagged? {
      TaggedNamed(trimmed);
    }
  }

  /** Every line of a parser state is well formed. */
  predicate AllWellFormed(p: Parsed) {
    forall l | l in p.lines :: WellFormed(l, p.speakers)
  }

  /** Emitting a reading with a named speaker and a text without surrounding white space keeps every line well formed. */
  lemma EmitWellFormed(p: Parsed, r: Reading, index: nat)
    requires AllWellFormed(p)
    requires r.speaker != "" && (r.text == [] || (!IsSpace(r.text[0]) && !IsSpace(r.text[|r.text| - 1])))
    ensures AllWellFormed(Emit(p, r, index))
    ensures Emit(p, r, index).lastSpeaker == Some(r.speaker)
  {
    if r.text != "" {
      var speakers := SetAdd(p.speakers, r.speaker);
      assert forall l | l in p.lines :: l.speaker in speakers;
    }
  }

  lemma WellFormedStep(p: Parsed, line: string, index: nat)
    requires AllWellFormed(p)
    ensures AllWellFormed(ParseLine(p, line, index))
    ensures var q := ParseLine(p, line, index);
            q.lastSpeaker == p.lastSpeaker || (q.lastSpeaker.Some? && q.lastSpeaker.value != "")
  {
    var trimmed := Trim(line);
    if trimmed != "" {
      ReadWellFormed(p, trimmed, index);
    }
  }

  lemma ReadWellFormed(p: Parsed, trimmed: string, index: nat)
    requires AllWellFormed(p)
    requires trimmed != [] && !IsSpace(trimmed[0]) && !IsSpace(trimmed[|trimmed| - 1])
    ensures AllWellFormed(Emit(p, Read(trimmed, p.lastSpeaker), index))
    ensures var q := Emit(p, Read(trimmed, p.lastSpeaker), index); q.lastSpeaker.Some? && q.lastSpeaker.value != ""
  {
    ReadingNamed(trimmed, p.lastSpeaker);
    EmitWellFormed(p, Read(trimmed, p.lastSpeaker), index);
  }

  /** Every emitted line names a speaker from the speaker set and carries a
      trimmed, non-empty text; `lastSpeaker` is never the empty string, so the
      `Speaker 1` fallback is taken only before any speaker is seen. */
  lemma {:induction false} ParsedWellFormed(raw: seq<string>)
    ensures AllWellFormed(ParseLines(raw))
    ensures ParseLines(raw).lastSpeaker.Some? ==> ParseLines(raw).lastSpeaker.value != ""
    decreases |raw|
  {
    if raw != [] {
      ParsedWellFormed(raw[..|raw| - 1]);
      WellFormedStep(ParseLines(raw[..|raw| - 1]), raw[|raw| - 1], |raw| - 1);
    }
  }

  /** Emitting appends at most one dialogue line, and adds its speaker to the set. */
  lemma EmitAppends(p: Parsed, r: Reading, index: nat)
    ensures var q := Emit(p, r, index);
            || (q.lines == p.lines && q.speakers == p.speakers)
            || (&& |q.lines| == |p.lines| + 1 && q.lines[..|p.lines|] == p.lines
                && q.speakers == SetAdd(p.speakers, q.lines[|p.lines|].speaker))
  {
    if r.speaker != "" && r.text != "" {
      var lines := p.lines + [DialogueLine(LineId(index, r.speaker), r.speaker, r.text)];
      assert lines[..|p.lines|] == p.lines;
    }
  }

  /** One raw line appends at most one dialogue line, and adds its speaker to the set. */
  lemma ParseLineAppends(p: Parsed, line: string, index: nat)
    ensures var q := ParseLine(p, line, index);
            || (q.lines == p.lines && q.speakers == p.speakers)
            || (&& |q.lines| == |p.lines| + 1 && q.lines[..|p.lines|] == p.lines
                && q.speakers == SetAdd(p.speakers, q.lines[|p.lines|].speaker))
  {
    var trimmed := Trim(line);
    if trimmed != "" {
      EmitAppends(p, Read(trimmed, p.lastSpeaker), index);
    }
  }

  /** The speaker set is exactly the speakers of the emitted lines, in order of first appearance. */
  lemma {:induction false} ParsedSpeakers(raw: seq<string>)
    ensures ParseLines(raw).speakers == FirstAppearances(SpeakerNames(ParseLines(raw).lines))
    decreases |raw|
  {
    if raw != [] {
      var p := ParseLines(raw[..|raw| - 1]);
      ParsedSpeakers(raw[..|raw| - 1]);
      ParseLineAppends(p, raw[|raw| - 1], |raw| - 1);
      SpeakersStep(p, ParseLines(raw));
    }
  }

  lemma SpeakersStep(p: Parsed, q: Parsed)
    requires p.speakers == FirstAppearances(SpeakerNames(p.lines))
    requires || (q.lines == p.lines && q.speakers == p.speakers)
             || (&& |q.lines| == |p.lines| + 1 && q.lines[..|p.lines|] == p.lines
                 && q.speakers == SetAdd(p.speakers, q.lines[|p.lines|].speaker))
    ensures q.speakers == FirstAppearances(SpeakerNames(q.lines))
  {
    if |q.lines| == |p.lines| + 1 {
      var names := SpeakerNames(q.lines);
      var init := SpeakerNames(p.lines);
      forall i | 0 <= i < |init| ensures names[i] == init[i] {
        assert q.lines[i] == q.lines[..|p.lines|][i];
      }
      assert names[..|names| - 1] == init;
    }
  }

  lemma PrefixExtends(raw: seq<string>, i: nat)
    requires i < |raw|
    ensures ParseLines(raw[..i]).lines <= ParseLines(raw[..i + 1]).lines
  {
    ParsePrefixStep(raw, i);
    ParseLineAppends(ParseLines(raw[..i]), raw[i], i);
  }

  /** Later raw lines only ever append: the lines parsed from a prefix of the script come first, in order. */
  lemma {:induction false} ParsedInOrder(raw: seq<string>, i: nat)
    requires i <= |raw|
    ensures ParseLines(raw[..i]).lines <= ParseLines(raw).lines
    decreases |raw| - i
  {
    if i < |raw| {
      PrefixExtends(raw, i);
      ParsedInOrder(raw, i + 1);
    } else {
      assert raw[..i] == raw;
    }
  }

  lemma ParseSnoc(raw: seq<string>, line: string)
    ensures ParseLines(raw + [line]) == ParseLine(ParseLines(raw), line, |raw|)
  {
    assert (raw + [line])[..|raw|] == raw;
  }

  /** A blank raw line contributes nothing and leaves `lastSpeaker` alone. */
  lemma BlankLineSkipped(p: Parsed, line: string, index: nat)
    requires IsBlank(line)
    ensures ParseLine(p, line, index) == p
  {
  }

  /** A name in front of the first colon of a trimmed line is never blank. */
  lemma LeadingName(trimmed: string, name: string, after: string)
    requires trimmed == name + [':'] + after && !IsSpace(trimmed[0]) && name != []
    ensures Trim(name) != ""
  {
    assert name[0] == trimmed[0];
  }

  lemma TaggedRead(trimmed: string, name: string, after: string, lastSpeaker: Option<string>)
    requires trimmed == name + [':'] + after
    requires name != [] && ':' !in name
    requires NoLineTerminator(TrimStart(after))
    ensures Read(trimmed, lastSpeaker) == Reading(Trim(name), Trim(after))
  {
    MatchTagFinds(name, after);
    TrimAfterStart(after);
  }

  /** A raw line reading `name: text` once trimmed is spoken by the trimmed
      name with the trimmed text and an id from its raw index; the name
      becomes `lastSpeaker` even when the text is empty and nothing is emitted. */
  lemma TaggedLine(p: Parsed, line: string, index: nat, name: string, after: string)
    requires Trim(line) == name + [':'] + after
    requires name != [] && ':' !in name
    requires NoLineTerminator(TrimStart(after))
    ensures ParseLine(p, line, index).lastSpeaker == Some(Trim(name))
    ensures Trim(after) == "" ==> ParseLine(p, line, index).lines == p.lines
    ensures Trim(after) != "" ==>
              ParseLine(p, line, index).lines == p.lines + [DialogueLine(LineId(index, Trim(name)), Trim(name), Trim(after))]
  {
    TaggedParse(p, line, index, name, after);
  }

  lemma TaggedParse(p: Parsed, line: string, index: nat, name: string, after: string)
    requires Trim(line) == name + [':'] + after
    requires name != [] && ':' !in name
    requires NoLineTerminator(TrimStart(after))
    ensures Trim(name) != "" && ParseLine(p, line, index) == Emit(p, Reading(Trim(name), Trim(after)), index)
  {
    LeadingName(Trim(line), name, after);
    TaggedRead(Trim(line), name, after, p.lastSpeaker);
  }

  /** A non-blank line that the speaker tag does not match (no colon, a
      leading colon, or a line terminator in the text) is spoken, whole and
      trimmed, by the last speaker seen, or by `Speaker 1` before any. */
  lemma UntaggedLine(raw: seq<string>, line: string)
    requires !IsBlank(line) && MatchTag(Trim(line)) == Untagged
    ensures var p, q := ParseLines(raw), ParseLines(raw + [line]);
            var speaker := if p.lastSpeaker.None? then "Speaker 1" else p.lastSpeaker.value;
            && q.lastSpeaker == Some(speaker)
            && q.lines == p.lines + [DialogueLine(LineId(|raw|, speaker), speaker, Trim(line))]
  {
    ParseSnoc(raw, line);
    ParsedWellFormed(raw);
  }

  /** A line opening with a colon is untagged: the name must not be empty. */
  lemma LeadingColonUntagged()
    ensures MatchTag(": hello") == Untagged
  {
    NoNameUntagged(": hello");
  }
}
