/** The records the narrator passes around, and the constant tables it uses. */
module Types {
  import opened Wrappers

  /** One line of narration: `speaker` is the display key, `text` the words to speak. */
  datatype DialogueLine = DialogueLine(id: string, speaker: string, text: string)

  /** Per-speaker synthesis settings; `seed` is the single seed sent with every request. */
  datatype SpeakerConfig = SpeakerConfig(
    voice: string,
    promptPrefix: string,
    emotion: string,
    volume: real,
    speed: string,
    seed: int)

  /** A selectable voice; a custom voice plays through the prebuilt voice `baseVoiceId`.
      An absent `isCustom` is `false`. */
  datatype Voice = Voice(name: string, id: string, isCustom: bool, baseVoiceId: Option<string>)

  /** A speaking-speed choice and the adverb it contributes to the style prefix. */
  datatype Speed = Speed(value: string, adverb: string)

  const DEFAULT_SEED: int := 949222

  /** The prebuilt voices, in menu order. */
  const AVAILABLE_VOICES: seq<Voice> := [
    Voice("Iapetus (Male, Warm Wisdom)", "Iapetus", false, None),
    Voice("Charon (Male, Deep)", "Charon", false, None),
    Voice("Enceladus (Male, Smooth)", "Enceladus", false, None),
    Voice("Kore (Female)", "Kore", false, None),
    Voice("Zephyr (Female, Soft)", "Zephyr", false, None),
    Voice("Puck (Male)", "Puck", false, None),
    Voice("Fenrir (Male, Raspy)", "Fenrir", false, None)
  ]

  /** The id of the first prebuilt voice, the fallback wherever a voice is missing. */
  const DEFAULT_VOICE_ID: string := "Iapetus"

  const SPEEDS: seq<Speed> := [
    Speed("slow", "slowly"),
    Speed("slightly_slow", "at a comfortable, relaxed pace"),
    Speed("normal", ""),
    Speed("slightly_fast", "somewhat quickly")
  ]
}
