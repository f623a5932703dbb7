/** The per-speaker settings logic of `App.tsx`: the style prefix built from
    a configuration, the voice a configuration resolves to, the effective
    configurations handed to speech generation, and the migration of saved
    configurations and custom voices. */
module AppConfig {
  import opened Wrappers
  import opened Strings
  import opened Types
  import opened JsMaps
  import Reconciliation
  import ScriptParser
  import GeminiService

  // ----- constructFullPrefix -----

  /** `speeds.find(s => s.value === speed)`: the first speed with that value. */
  function FindSpeed(speeds: seq<Speed>, speed: string): (r: Option<Speed>)
    ensures r.Some? ==> r.value in speeds && r.value.value == speed
    ensures r.None? <==> forall s | s in speeds :: s.value != speed
    decreases |speeds|
  {
    if speeds == [] then None
    else if speeds[0].value == speed then Some(speeds[0])
    else FindSpeed(speeds[1..], speed)
  }

  /** `SPEEDS.find(...)?.adverb ?? ''`. */
  function SpeedAdverb(speed: string): string {
    match FindSpeed(SPEEDS, speed)
    case Some(s) => s.adverb
    case None => ""
  }

  /** `config.emotion !== 'none' ? config.emotion : ''`. */
  function EmotionDesc(emotion: string): string {
    if emotion != "none" then emotion else ""
  }

  /** `constructFullPrefix(config)`. */
  function ConstructFullPrefix(config: SpeakerConfig): string {
    var speedAdverb := SpeedAdverb(config.speed);
    var emotionDesc := EmotionDesc(config.emotion);
    if speedAdverb == "" && emotionDesc == "" then ""
    else if speedAdverb != "" && emotionDesc != "" then "Please speak " + speedAdverb + " and " + emotionDesc + ":"
    else if speedAdverb != "" then "Please speak " + speedAdverb + ":"
    else "Please speak " + emotionDesc + ":"
  }

  /** Only three speeds contribute an adverb; `normal` and any unknown speed contribute none. */
  lemma SpeedAdverbs(speed: string)
    ensures SpeedAdverb(speed) != "" <==> speed == "slow" || speed == "slightly_slow" || speed == "slightly_fast"
    ensures speed == "slow" ==> SpeedAdverb(speed) == "slowly"
    ensures speed == "slightly_slow" ==> SpeedAdverb(speed) == "at a comfortable, relaxed pace"
    ensures speed == "slightly_fast" ==> SpeedAdverb(speed) == "somewhat quickly"
  {
    assert SPEEDS[1..][1..][1..][1..] == [];
  }

  /** There is no prefix exactly when the speed has no adverb and the emotion is
      `none`, or empty: an empty emotion is as falsy as `none` is excluded. */
  lemma PrefixEmpty(config: SpeakerConfig)
    ensures ConstructFullPrefix(config) == "" <==>
      SpeedAdverb(config.speed) == "" && (config.emotion == "none" || config.emotion == "")
  {
  }

  /** A prefix names the adverb, the emotion or both joined by `and`, between `Please speak ` and a colon. */
  lemma PrefixShape(config: SpeakerConfig)
    ensures var a, e, r := SpeedAdverb(config.speed), config.emotion, ConstructFullPrefix(config);
      && (a != "" && e != "none" && e != "" ==> r == "Please speak " + a + " and " + e + ":")
      && (a != "" && (e == "none" || e == "") ==> r == "Please speak " + a + ":")
      && (a == "" && e != "none" && e != "" ==> r == "Please speak " + e + ":")
  {
  }

  /** A speaker's default configuration asks for no style: its prefix is empty. */
  lemma DefaultPrefix(voice: string)
    ensures ConstructFullPrefix(Reconciliation.DefaultConfig(voice)) == ""
  {
    SpeedAdverbs("normal");
  }

  /** A speaker left at its default configuration is sent its batch text alone, trimmed. */
  lemma DefaultSendsText(voice: string, voiceInfo: Voice, text: string)
    ensures GeminiService.Prompt(Effective(Reconciliation.DefaultConfig(voice), voiceInfo), text) == Trim(text)
  {
    var c := Effective(Reconciliation.DefaultConfig(voice), voiceInfo);
    DefaultPrefix(voice);
    assert c.promptPrefix == "";
    EmptyPrefixPrompt(c, text);
  }

  lemma EmptyPrefixPrompt(c: SpeakerConfig, text: string)
    requires c.promptPrefix == ""
    ensures GeminiService.Prompt(c, text) == Trim(text)
  {
    assert c.promptPrefix + " " + text == " " + text;
    TrimSpaceFirst(text);
  }

  // ----- voices -----

  /** `voices.find(v => v.id === id)`: the first voice with that id. */
  function FindVoice(voices: seq<Voice>, id: string): (r: Option<Voice>)
    ensures r.Some? ==> r.value in voices && r.value.id == id
    ensures r.None? <==> forall v | v in voices :: v.id != id
    decreases |voices|
  {
    if voices == [] then None
    else if voices[0].id == id then Some(voices[0])
    else FindVoice(voices[1..], id)
  }

  /** `[...AVAILABLE_VOICES, ...customVoices]`. */
  function AllVoices(customVoices: seq<Voice>): seq<Voice> {
    AVAILABLE_VOICES + customVoices
  }

  /** The voice actually sent: a custom voice with a (truthy) base plays through the base. */
  function ResolveVoice(voiceInfo: Voice): string {
    if voiceInfo.isCustom && voiceInfo.baseVoiceId.Some? && voiceInfo.baseVoiceId.value != "" then voiceInfo.baseVoiceId.value
    else voiceInfo.id
  }

  /** A resolved voice is the voice itself unless it is custom and has a base, which it then is. */
  lemma ResolveVoiceCases(voiceInfo: Voice)
    ensures ResolveVoice(voiceInfo) != voiceInfo.id ==> voiceInfo.isCustom && voiceInfo.baseVoiceId == Some(ResolveVoice(voiceInfo))
    ensures !voiceInfo.isCustom ==> ResolveVoice(voiceInfo) == voiceInfo.id
    ensures voiceInfo.isCustom && voiceInfo.baseVoiceId.Some? && voiceInfo.baseVoiceId.value != "" ==>
              ResolveVoice(voiceInfo) == voiceInfo.baseVoiceId.value
  {
  }

  /** The prebuilt voices come first, so looking up a prebuilt id always finds
      the prebuilt voice, whatever custom voices exist; it resolves to itself. */
  lemma PrebuiltFound(customVoices: seq<Voice>, i: nat)
    requires i < |AVAILABLE_VOICES|
    ensures FindVoice(AllVoices(customVoices), AVAILABLE_VOICES[i].id) == Some(AVAILABLE_VOICES[i])
    ensures ResolveVoice(AVAILABLE_VOICES[i]) == AVAILABLE_VOICES[i].id
  {
    var all := AllVoices(customVoices);
    FindFirst(all, i);
  }

  /** `find` returns the entry at `i` when no earlier entry has its id. */
  lemma {:induction false} FindFirst(voices: seq<Voice>, i: nat)
    requires i < |voices|
    requires forall j | 0 <= j < i :: voices[j].id != voices[i].id
    ensures FindVoice(voices, voices[i].id) == Some(voices[i])
    decreases i
  {
    if i > 0 {
      FindFirst(voices[1..], i - 1);
    }
  }

  // ----- effective configurations -----

  /** `{ ...config, voice: voiceToUse, promptPrefix: fullPrefix }`. */
  function Effective(config: SpeakerConfig, voiceInfo: Voice): SpeakerConfig {
    config.(voice := ResolveVoice(voiceInfo), promptPrefix := ConstructFullPrefix(config))
  }

  /** What a speaker's effective configuration is, if it has one: none without a
      configuration or when its voice is unknown. */
  function EffectiveFor(speaker: string, speakerConfigs: JsMap<SpeakerConfig>, allVoices: seq<Voice>): Option<SpeakerConfig> {
    match Get(speakerConfigs, speaker)
    case None => None
    case Some(config) =>
      match FindVoice(allVoices, config.voice)
      case None => None
      case Some(voiceInfo) => Some(Effective(config, voiceInfo))
  }

  /** One pass of the loop of lines 254-263, given the line's speaker and
      what its effective configuration would be. */
  function EffectiveStep(m: JsMap<SpeakerConfig>, speaker: string, e: Option<SpeakerConfig>): JsMap<SpeakerConfig> {
    if Has(m, speaker) || e.None? then m else Set(m, speaker, e.value)
  }

  /** The map the loop of lines 254-263 builds over the lines, in order. */
  function EffectiveConfigs(lines: seq<DialogueLine>, speakerConfigs: JsMap<SpeakerConfig>, allVoices: seq<Voice>): JsMap<SpeakerConfig>
    decreases |lines|
  {
    if lines == [] then []
    else
      var x := lines[|lines| - 1].speaker;
      EffectiveStep(EffectiveConfigs(lines[..|lines| - 1], speakerConfigs, allVoices), x, EffectiveFor(x, speakerConfigs, allVoices))
  }

  /** Lines 253-264 of `handleGenerateFullStory`. */
  method BuildEffectiveConfigs(dialogueLines: seq<DialogueLine>, speakerConfigs: JsMap<SpeakerConfig>, allVoices: seq<Voice>)
    returns (effectiveSpeakerConfigs: JsMap<SpeakerConfig>)
    ensures effectiveSpeakerConfigs == EffectiveConfigs(dialogueLines, speakerConfigs, allVoices)
  {
    effectiveSpeakerConfigs := [];
    for i := 0 to |dialogueLines|
      invariant effectiveSpeakerConfigs == EffectiveConfigs(dialogueLines[..i], speakerConfigs, allVoices)
    {
      EffectiveSnoc(dialogueLines, i, speakerConfigs, allVoices);
      var line := dialogueLines[i];
      if !Has(effectiveSpeakerConfigs, line.speaker) {
        var config := Get(speakerConfigs, line.speaker);
        if config.Some? {
          var voiceInfo := FindVoice(allVoices, config.value.voice);
          if voiceInfo.Some? {
            var voiceToUse := if voiceInfo.value.isCustom && voiceInfo.value.baseVoiceId.Some? && voiceInfo.value.baseVoiceId.value != ""
              then voiceInfo.value.baseVoiceId.value else voiceInfo.value.id;
            var fullPrefix := ConstructFullPrefix(config.value);
            effectiveSpeakerConfigs := Set(effectiveSpeakerConfigs, line.speaker, config.value.(voice := voiceToUse, promptPrefix := fullPrefix));
          }
        }
      }
    }
    assert dialogueLines[..|dialogueLines|] == dialogueLines;
  }

  lemma EffectiveSnoc(lines: seq<DialogueLine>, i: nat, speakerConfigs: JsMap<SpeakerConfig>, allVoices: seq<Voice>)
    requires i < |lines|
    ensures EffectiveConfigs(lines[..i + 1], speakerConfigs, allVoices)
            == EffectiveStep(EffectiveConfigs(lines[..i], speakerConfigs, allVoices), lines[i].speaker,
                             EffectiveFor(lines[i].speaker, speakerConfigs, allVoices))
  {
    assert lines[..i + 1][..i] == lines[..i];
  }

  /** The speakers, in order, that have an effective configuration. */
  function Qualifying(names: seq<string>, speakerConfigs: JsMap<SpeakerConfig>, allVoices: seq<Voice>): (r: seq<string>)
    ensures forall x | x in r :: x in names && EffectiveFor(x, speakerConfigs, allVoices).Some?
    decreases |names|
  {
    if names == [] then []
    else
      var init, x := names[..|names| - 1], names[|names| - 1];
      Qualifying(init, speakerConfigs, allVoices) + (if EffectiveFor(x, speakerConfigs, allVoices).Some? then [x] else [])
  }

  /** A speaker of the lines gets its effective configuration; nobody else gets one. */
  lemma {:induction false} EffectiveGet(lines: seq<DialogueLine>, speakerConfigs: JsMap<SpeakerConfig>, allVoices: seq<Voice>, k: string)
    ensures Get(EffectiveConfigs(lines, speakerConfigs, allVoices), k)
            == if k in ScriptParser.SpeakerNames(lines) then EffectiveFor(k, speakerConfigs, allVoices) else None
    decreases |lines|
  {
    if lines != [] {
      var init, line := lines[..|lines| - 1], lines[|lines| - 1];
      EffectiveGet(init, speakerConfigs, allVoices, k);
      EffectiveGet(init, speakerConfigs, allVoices, line.speaker);
      NamesSnoc(lines);
    }
  }

  lemma NamesSnoc(lines: seq<DialogueLine>)
    requires lines != []
    ensures ScriptParser.SpeakerNames(lines) == ScriptParser.SpeakerNames(lines[..|lines| - 1]) + [lines[|lines| - 1].speaker]
  {
  }

  /** One entry per qualifying speaker, in order of first appearance. */
  lemma {:induction false} EffectiveKeys(lines: seq<DialogueLine>, speakerConfigs: JsMap<SpeakerConfig>, allVoices: seq<Voice>)
    ensures Keys(EffectiveConfigs(lines, speakerConfigs, allVoices))
            == FirstAppearances(Qualifying(ScriptParser.SpeakerNames(lines), speakerConfigs, allVoices))
    decreases |lines|
  {
    if lines != [] {
      var init, line := lines[..|lines| - 1], lines[|lines| - 1];
      EffectiveKeys(init, speakerConfigs, allVoices);
      QualifyingSnoc(lines, speakerConfigs, allVoices);
      assert EffectiveConfigs(lines, speakerConfigs, allVoices)
             == EffectiveStep(EffectiveConfigs(init, speakerConfigs, allVoices), line.speaker,
                              EffectiveFor(line.speaker, speakerConfigs, allVoices));
      EffectiveKeysStep(EffectiveConfigs(init, speakerConfigs, allVoices),
        Qualifying(ScriptParser.SpeakerNames(init), speakerConfigs, allVoices), line.speaker,
        EffectiveFor(line.speaker, speakerConfigs, allVoices));
    }
  }

  lemma EffectiveKeysStep(m: JsMap<SpeakerConfig>, q: seq<string>, x: string, e: Option<SpeakerConfig>)
    requires Keys(m) == FirstAppearances(q)
    ensures Keys(EffectiveStep(m, x, e)) == FirstAppearances(q + (if e.Some? then [x] else []))
  {
    if e.Some? {
      FirstAppearancesSnoc(q, x);
      SetKeys(m, x, e.value);
    } else {
      assert q + [] == q;
    }
  }

  lemma QualifyingSnoc(lines: seq<DialogueLine>, speakerConfigs: JsMap<SpeakerConfig>, allVoices: seq<Voice>)
    requires lines != []
    ensures var x := lines[|lines| - 1].speaker;
      Qualifying(ScriptParser.SpeakerNames(lines), speakerConfigs, allVoices)
      == Qualifying(ScriptParser.SpeakerNames(lines[..|lines| - 1]), speakerConfigs, allVoices)
         + (if EffectiveFor(x, speakerConfigs, allVoices).Some? then [x] else [])
  {
    NamesSnoc(lines);
    var names := ScriptParser.SpeakerNames(lines);
    assert names[..|names| - 1] == ScriptParser.SpeakerNames(lines[..|lines| - 1]);
  }

  /** `set` adds its key to the keys as `Set.add` would. */
  lemma SetKeys<V>(m: JsMap<V>, k: string, v: V)
    ensures Keys(Set(m, k, v)) == SetAdd(Keys(m), k)
  {
  }

  lemma FirstAppearancesSnoc(xs: seq<string>, x: string)
    ensures FirstAppearances(xs + [x]) == SetAdd(FirstAppearances(xs), x)
  {
    assert (xs + [x])[..|xs|] == xs;
  }

  // ----- migration of saved configurations -----

  /** A configuration as read back from storage: a field is `None` when absent. */
  datatype SavedConfig = SavedConfig(
    voice: Option<string>,
    promptPrefix: Option<string>,
    emotion: Option<string>,
    volume: Option<real>,
    speed: Option<string>,
    seed: Option<int>)

  /** `value || fallback` for a string field: absent and empty are falsy. */
  function OrString(value: Option<string>, fallback: string): string {
    if value.Some? && value.value != "" then value.value else fallback
  }

  /** Lines 81-88: every falsy field takes its default; the seed only when it is absent. */
  function MigrateConfig(config: SavedConfig): SpeakerConfig {
    SpeakerConfig(
      OrString(config.voice, DEFAULT_VOICE_ID),
      OrString(config.promptPrefix, ""),
      OrString(config.emotion, "none"),
      if config.volume.Some? && config.volume.value != 0.0 then config.volume.value else 1.0,
      OrString(config.speed, "normal"),
      if config.seed.Some? then config.seed.value else DEFAULT_SEED)
  }

  /** What saving writes for a configuration: every field present. */
  function Saved(config: SpeakerConfig): SavedConfig {
    SavedConfig(Some(config.voice), Some(config.promptPrefix), Some(config.emotion), Some(config.volume), Some(config.speed), Some(config.seed))
  }

  /** A migrated configuration has a voice, an emotion and a speed, a non-zero
      volume, and the saved seed whenever one was saved, even 0. */
  lemma MigratedFilled(config: SavedConfig)
    ensures var c := MigrateConfig(config);
      && c.voice != "" && c.emotion != "" && c.speed != "" && c.volume != 0.0
      && (config.seed.Some? ==> c.seed == config.seed.value)
      && (config.seed.None? ==> c.seed == DEFAULT_SEED)
  {
  }

  /** Saving and migrating gives a configuration back unchanged exactly when it
      has a voice, an emotion, a speed and a non-zero volume. */
  lemma MigrateSaved(config: SpeakerConfig)
    ensures MigrateConfig(Saved(config)) == config <==>
      config.voice != "" && config.emotion != "" && config.speed != "" && config.volume != 0.0
  {
    if MigrateConfig(Saved(config)) == config {
      MigratedFilled(Saved(config));
    }
  }

  /** Migration is idempotent: a migrated configuration survives another save and load. */
  lemma MigrateIdempotent(config: SavedConfig)
    ensures MigrateConfig(Saved(MigrateConfig(config))) == MigrateConfig(config)
  {
    MigratedFilled(config);
    MigrateSaved(MigrateConfig(config));
  }

  /** A zero volume is falsy and becomes 1; a zero seed is defined and is kept. */
  lemma ZeroVolumeZeroSeed()
    ensures MigrateConfig(SavedConfig(None, None, None, Some(0.0), None, Some(0)))
            == SpeakerConfig(DEFAULT_VOICE_ID, "", "none", 1.0, "normal", 0)
  {
  }

  /** One saved `[speaker, config]` pair. */
  datatype SavedEntry = SavedEntry(speaker: string, config: SavedConfig)

  /** `new Map(parsedConfigs.map(...))`: the pairs set in order. */
  function MigrateConfigs(saved: seq<SavedEntry>): JsMap<SpeakerConfig>
    decreases |saved|
  {
    if saved == [] then []
    else
      var e := saved[|saved| - 1];
      Set(MigrateConfigs(saved[..|saved| - 1]), e.speaker, MigrateConfig(e.config))
  }

  /** `Array.from(speakerConfigs.entries())` as saving writes it. */
  function SaveConfigs(m: JsMap<SpeakerConfig>): (r: seq<SavedEntry>)
    ensures |r| == |m|
    ensures forall i | 0 <= i < |m| :: r[i] == SavedEntry(m[i].key, Saved(m[i].value))
  {
    seq(|m|, i requires 0 <= i < |m| => SavedEntry(m[i].key, Saved(m[i].value)))
  }

  /** The speakers of saved pairs, in order. */
  function SavedSpeakers(saved: seq<SavedEntry>): seq<string>
    decreases |saved|
  {
    if saved == [] then [] else SavedSpeakers(saved[..|saved| - 1]) + [saved[|saved| - 1].speaker]
  }

  /** The migrated map holds each saved speaker once, in order of first appearance. */
  lemma {:induction false} MigrateConfigsKeys(saved: seq<SavedEntry>)
    ensures Keys(MigrateConfigs(saved)) == FirstAppearances(SavedSpeakers(saved))
    decreases |saved|
  {
    if saved != [] {
      var init, e := saved[..|saved| - 1], saved[|saved| - 1];
      MigrateConfigsKeys(init);
      KeysStep(MigrateConfigs(init), SavedSpeakers(init), e.speaker, MigrateConfig(e.config));
    }
  }

  lemma KeysStep(m: JsMap<SpeakerConfig>, names: seq<string>, k: string, v: SpeakerConfig)
    requires Keys(m) == FirstAppearances(names)
    ensures Keys(Set(m, k, v)) == FirstAppearances(names + [k])
  {
    SetKeys(m, k, v);
    FirstAppearancesSnoc(names, k);
  }

  /** A configuration whose voice, emotion and speed are non-empty and whose
      volume is not 0: the fields migration would otherwise fill in. */
  predicate Filled(config: SpeakerConfig) {
    config.voice != "" && config.emotion != "" && config.speed != "" && config.volume != 0.0
  }

  /** Saving a map and migrating it back gives the same map, entry for entry
      and in order, when every configuration has a voice, an emotion, a speed
      and a non-zero volume. */
  lemma {:induction false} ConfigsRoundTrip(m: JsMap<SpeakerConfig>)
    requires DistinctKeys(m)
    requires forall i | 0 <= i < |m| :: Filled(m[i].value)
    ensures MigrateConfigs(SaveConfigs(m)) == m
    decreases |m|
  {
    if m != [] {
      var init, last := m[..|m| - 1], m[|m| - 1];
      FilledPrefix(m, init);
      ConfigsRoundTrip(init);
      SaveSnoc(m);
      MigrateSaved(last.value);
      RoundTripStep(init, last);
    }
  }

  lemma FilledPrefix(m: JsMap<SpeakerConfig>, init: JsMap<SpeakerConfig>)
    requires m != [] && init == m[..|m| - 1] && DistinctKeys(m)
    requires forall i | 0 <= i < |m| :: Filled(m[i].value)
    ensures m == init + [m[|m| - 1]]
    ensures DistinctKeys(init) && DistinctKeys(init + [m[|m| - 1]])
    ensures forall i | 0 <= i < |init| :: Filled(init[i].value)
    ensures Filled(m[|m| - 1].value)
  {
  }

  /** Saving and migrating the last entry of a map sets it on the migrated rest. */
  lemma SaveSnoc(m: JsMap<SpeakerConfig>)
    requires m != []
    ensures MigrateConfigs(SaveConfigs(m))
            == Set(MigrateConfigs(SaveConfigs(m[..|m| - 1])), m[|m| - 1].key, MigrateConfig(Saved(m[|m| - 1].value)))
  {
    var saved := SaveConfigs(m);
    assert saved[..|saved| - 1] == SaveConfigs(m[..|m| - 1]);
  }

  lemma RoundTripStep(init: JsMap<SpeakerConfig>, last: Entry<SpeakerConfig>)
    requires DistinctKeys(init + [last])
    ensures Set(init, last.key, last.value) == init + [last]
  {
    GetSnoc(init, last, last.key);
  }

  // ----- migration of custom voices -----

  /** A custom voice as read back from storage: a field is `None` when absent. */
  datatype SavedVoice = SavedVoice(id: Option<string>, name: Option<string>, baseVoiceId: Option<string>)

  /** `voice && voice.id && voice.name`: an entry that is not an object is `None`. */
  predicate KeepVoice(entry: Option<SavedVoice>) {
    entry.Some? && entry.value.id.Some? && entry.value.id.value != "" && entry.value.name.Some? && entry.value.name.value != ""
  }

  /** Lines 102-107: the kept entry as a custom voice with a base, `Iapetus` by default. */
  function MigrateVoice(entry: Option<SavedVoice>): Voice
    requires KeepVoice(entry)
  {
    Voice(entry.value.name.value, entry.value.id.value, true, Some(OrString(entry.value.baseVoiceId, DEFAULT_VOICE_ID)))
  }

  /** Lines 101-107: the `filter` then the `map`. */
  function MigrateVoices(saved: seq<Option<SavedVoice>>): seq<Voice>
    decreases |saved|
  {
    if saved == [] then []
    else
      var rest := MigrateVoices(saved[1..]);
      if KeepVoice(saved[0]) then [MigrateVoice(saved[0])] + rest else rest
  }

  /** A migrated voice is custom, has an id, a name and a base, and plays through its base. */
  predicate MigratedVoice(v: Voice) {
    v.isCustom && v.id != "" && v.name != "" && v.baseVoiceId.Some? && v.baseVoiceId.value != ""
  }

  /** Every migrated voice is a custom voice with a base it resolves to. */
  lemma {:induction false} MigratedVoicesCustom(saved: seq<Option<SavedVoice>>)
    ensures forall v | v in MigrateVoices(saved) :: MigratedVoice(v) && ResolveVoice(v) == v.baseVoiceId.value
    decreases |saved|
  {
    if saved != [] {
      MigratedVoicesCustom(saved[1..]);
    }
  }

  /** What saving writes for a voice. */
  function SavedVoiceOf(v: Voice): Option<SavedVoice> {
    Some(SavedVoice(Some(v.id), Some(v.name), v.baseVoiceId))
  }

  /** Only entries with an id and a name survive, in order; a voice list that
      migration produced survives another save and load unchanged. */
  lemma {:induction false} VoicesRoundTrip(voices: seq<Voice>)
    requires forall v | v in voices :: MigratedVoice(v)
    ensures MigrateVoices(seq(|voices|, i requires 0 <= i < |voices| => SavedVoiceOf(voices[i]))) == voices
    decreases |voices|
  {
    if voices != [] {
      var saved := seq(|voices|, i requires 0 <= i < |voices| => SavedVoiceOf(voices[i]));
      var rest := voices[1..];
      VoicesRoundTrip(rest);
      assert saved[1..] == seq(|rest|, i requires 0 <= i < |rest| => SavedVoiceOf(rest[i]));
      assert voices[0] in voices;
    }
  }

  /** An entry without an id or a name is dropped. */
  lemma DropsUnnamed(entry: Option<SavedVoice>, rest: seq<Option<SavedVoice>>)
    requires entry.None? || entry.value.id.None? || entry.value.id.value == "" || entry.value.name.None? || entry.value.name.value == ""
    ensures MigrateVoices([entry] + rest) == MigrateVoices(rest)
  {
    assert ([entry] + rest)[1..] == rest;
  }
}
