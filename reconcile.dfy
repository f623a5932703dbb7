/** The reconciliation of `App.tsx`: after a parse, every speaker of the
    script gets a configuration (the one it had, or a default with the next
    voice of the rotation) and configurations of speakers no longer in the
    script are deleted. */
module Reconciliation {
  import opened Wrappers
  import opened Types
  import opened JsMaps
  import ScriptParser
  import Strings

  /** The voice of the rotation at position `i`: the prebuilt voices in menu order, cyclically. */
  function VoiceAt(i: nat): string {
    AVAILABLE_VOICES[i % |AVAILABLE_VOICES|].id
  }

  /** The configuration a new speaker starts with. */
  function DefaultConfig(voice: string): SpeakerConfig {
    SpeakerConfig(voice, "", "none", 1.0, "normal", DEFAULT_SEED)
  }

  /** The map being built and `voiceIndex`, the number of defaults handed out so far. */
  datatype Seeding = Seeding(configs: JsMap<SpeakerConfig>, voiceIndex: nat)

  /** One pass of the first `forEach`: a speaker without a configuration gets a default one. */
  function AddStep(s: Seeding, speaker: string): Seeding {
    if Has(s.configs, speaker) then s
    else Seeding(Set(s.configs, speaker, DefaultConfig(VoiceAt(s.voiceIndex))), s.voiceIndex + 1)
  }

  /** The first `forEach` over the speakers, in order. */
  function AddDefaults(s: Seeding, speakers: seq<string>): Seeding
    decreases |speakers|
  {
    if speakers == [] then s
    else AddStep(AddDefaults(s, speakers[..|speakers| - 1]), speakers[|speakers| - 1])
  }

  /** The second `forEach`: over the keys `ks` in order, each key not among the speakers is deleted. */
  function Prune(m: JsMap<SpeakerConfig>, ks: seq<string>, speakers: seq<string>): JsMap<SpeakerConfig>
    decreases |ks|
  {
    if ks == [] then m
    else
      var m' := Prune(m, ks[..|ks| - 1], speakers);
      var k := ks[|ks| - 1];
      if k in speakers then m' else Delete(m', k)
  }

  /** The configurations after reconciling `prev` with the speakers of a new parse. */
  function Reconciled(prev: JsMap<SpeakerConfig>, speakers: seq<string>): JsMap<SpeakerConfig> {
    var added := AddDefaults(Seeding(prev, 0), speakers).configs;
    Prune(added, Keys(added), speakers)
  }

  /** Lines 143-162: a copy of the previous map, a default for every new
      speaker with the next voice of the rotation, then the deletion of every
      key not among the speakers, over a snapshot of the keys. */
  method Reconcile(prevConfigs: JsMap<SpeakerConfig>, newSpeakers: seq<string>) returns (newConfigs: JsMap<SpeakerConfig>)
    ensures newConfigs == Reconciled(prevConfigs, newSpeakers)
  {
    newConfigs := SeedConfigs(prevConfigs, newSpeakers);
    newConfigs := PruneConfigs(newConfigs, newSpeakers);
  }

  /** Lines 144-157: the copy of the previous map and the defaults for new speakers. */
  method SeedConfigs(prevConfigs: JsMap<SpeakerConfig>, newSpeakers: seq<string>) returns (newConfigs: JsMap<SpeakerConfig>)
    ensures newConfigs == AddDefaults(Seeding(prevConfigs, 0), newSpeakers).configs
  {
    newConfigs := prevConfigs;
    var voiceIndex := 0;
    for i := 0 to |newSpeakers|
      invariant Seeding(newConfigs, voiceIndex) == AddDefaults(Seeding(prevConfigs, 0), newSpeakers[..i])
    {
      assert newSpeakers[..i + 1][..i] == newSpeakers[..i];
      var speaker := newSpeakers[i];
      if !Has(newConfigs, speaker) {
        newConfigs := Set(newConfigs, speaker, DefaultConfig(VoiceAt(voiceIndex)));
        voiceIndex := voiceIndex + 1;
      }
    }
    assert newSpeakers[..|newSpeakers|] == newSpeakers;
  }

  /** Lines 158-160: the deletion of every key not among the speakers, over a snapshot of the keys. */
  method PruneConfigs(configs: JsMap<SpeakerConfig>, newSpeakers: seq<string>) returns (newConfigs: JsMap<SpeakerConfig>)
    ensures newConfigs == Prune(configs, Keys(configs), newSpeakers)
  {
    newConfigs := configs;
    var keys := Keys(configs);
    for i := 0 to |keys|
      invariant newConfigs == Prune(configs, keys[..i], newSpeakers)
    {
      assert keys[..i + 1][..i] == keys[..i];
      if keys[i] !in newSpeakers {
        newConfigs := Delete(newConfigs, keys[i]);
      }
    }
    assert keys[..|keys|] == keys;
  }

  // ----- what reconciliation promises -----

  /** The speakers that had no configuration, in the order they are met. */
  function NewSpeakers(prev: seq<Entry<SpeakerConfig>>, speakers: seq<string>): (r: seq<string>)
    ensures forall x :: x in r <==> x in speakers && x !in Keys(prev)
    ensures Distinct(speakers) ==> Distinct(r)
    decreases |speakers|
  {
    if speakers == [] then []
    else
      var init, x := speakers[..|speakers| - 1], speakers[|speakers| - 1];
      assert speakers == init + [x];
      assert Distinct(speakers) ==> Distinct(init) by {
        if Distinct(speakers) {
          forall i, j | 0 <= i < j < |init| ensures init[i] != init[j] { assert init[i] == speakers[i] && init[j] == speakers[j]; }
        }
      }
      if x in Keys(prev) then NewSpeakers(prev, init) else NewSpeakers(prev, init) + [x]
  }

  lemma DistinctInit(s: seq<string>)
    requires Distinct(s) && s != []
    ensures Distinct(s[..|s| - 1])
  {
  }

  lemma NewSpeakersSnoc(prev: seq<Entry<SpeakerConfig>>, speakers: seq<string>)
    requires speakers != []
    ensures var init, x := speakers[..|speakers| - 1], speakers[|speakers| - 1];
            && (x in Keys(prev) ==> NewSpeakers(prev, speakers) == NewSpeakers(prev, init))
            && (x !in Keys(prev) ==> NewSpeakers(prev, speakers) == NewSpeakers(prev, init) + [x])
  {
  }

  lemma LastNotEarlier(speakers: seq<string>)
    requires Distinct(speakers) && speakers != []
    ensures Distinct(speakers[..|speakers| - 1])
    ensures speakers[|speakers| - 1] !in speakers[..|speakers| - 1]
  {
  }

  /** One speaker more, given the keys so far: a new speaker is appended with
      the next voice, a configured one changes nothing. */
  lemma AddStepKeys(prev: JsMap<SpeakerConfig>, t: Seeding, news: seq<string>, x: string)
    requires Keys(t.configs) == Keys(prev) + news
    requires x !in news
    ensures x in Keys(prev) ==> AddStep(t, x) == t
    ensures x !in Keys(prev) ==> Keys(AddStep(t, x).configs) == Keys(prev) + (news + [x])
    ensures x !in Keys(prev) ==> AddStep(t, x).voiceIndex == t.voiceIndex + 1
    ensures x !in Keys(prev) ==> Get(AddStep(t, x).configs, x) == Some(DefaultConfig(VoiceAt(t.voiceIndex)))
    ensures forall k | k != x :: Get(AddStep(t, x).configs, k) == Get(t.configs, k)
  {
    if x in Keys(prev) {
      assert x in Keys(t.configs);
    } else {
      assert x !in Keys(t.configs);
      assert (Keys(prev) + news) + [x] == Keys(prev) + (news + [x]);
    }
  }

  /** Adding defaults appends the new speakers to the keys, in order, and
      advances the rotation once per new speaker. */
  lemma {:induction false} AddDefaultsKeys(s: Seeding, speakers: seq<string>)
    requires Distinct(speakers)
    ensures Keys(AddDefaults(s, speakers).configs) == Keys(s.configs) + NewSpeakers(s.configs, speakers)
    ensures AddDefaults(s, speakers).voiceIndex == s.voiceIndex + |NewSpeakers(s.configs, speakers)|
    decreases |speakers|
  {
    if speakers == [] {
      assert Keys(s.configs) + [] == Keys(s.configs);
    } else {
      var init, x := speakers[..|speakers| - 1], speakers[|speakers| - 1];
      LastNotEarlier(speakers);
      AddDefaultsKeys(s, init);
      NewSpeakersSnoc(s.configs, speakers);
      AddStepKeys(s.configs, AddDefaults(s, init), NewSpeakers(s.configs, init), x);
    }
  }

  /** Adding defaults keeps the keys distinct. */
  lemma {:induction false} AddDefaultsDistinct(s: Seeding, speakers: seq<string>)
    requires DistinctKeys(s.configs)
    ensures DistinctKeys(AddDefaults(s, speakers).configs)
    decreases |speakers|
  {
    if speakers != [] {
      var t := AddDefaults(s, speakers[..|speakers| - 1]);
      AddDefaultsDistinct(s, speakers[..|speakers| - 1]);
      SetDistinct(t.configs, speakers[|speakers| - 1], DefaultConfig(VoiceAt(t.voiceIndex)));
    }
  }

  /** Adding defaults leaves the existing entries alone. */
  lemma {:induction false} AddDefaultsKeeps(s: Seeding, speakers: seq<string>, k: string)
    requires Distinct(speakers)
    requires k in Keys(s.configs)
    ensures Get(AddDefaults(s, speakers).configs, k) == Get(s.configs, k)
    decreases |speakers|
  {
    if speakers != [] {
      var init, x := speakers[..|speakers| - 1], speakers[|speakers| - 1];
      LastNotEarlier(speakers);
      AddDefaultsKeeps(s, init, k);
      AddDefaultsKeys(s, init);
      AddStepKeys(s.configs, AddDefaults(s, init), NewSpeakers(s.configs, init), x);
    }
  }

  /** The `j`-th new speaker gets a default entry with the voice `j` places further along the rotation. */
  lemma {:induction false} AddDefaultsNew(s: Seeding, speakers: seq<string>, j: nat)
    requires Distinct(speakers)
    requires j < |NewSpeakers(s.configs, speakers)|
    ensures Get(AddDefaults(s, speakers).configs, NewSpeakers(s.configs, speakers)[j])
            == Some(DefaultConfig(VoiceAt(s.voiceIndex + j)))
    decreases |speakers|
  {
    var init, x := speakers[..|speakers| - 1], speakers[|speakers| - 1];
    var news := NewSpeakers(s.configs, init);
    LastNotEarlier(speakers);
    if j < |news| {
      AddDefaultsNew(s, init, j);
      NewSpeakersPrefix(s.configs, speakers, j);
      AddDefaultsKeys(s, init);
      AddStepKeys(s.configs, AddDefaults(s, init), news, x);
    } else {
      NewSpeakersSnoc(s.configs, speakers);
      assert x !in Keys(s.configs) && j == |news|;
      assert NewSpeakers(s.configs, speakers)[j] == x;
      assert AddDefaults(s, speakers) == AddStep(AddDefaults(s, init), x);
      AddDefaultsLast(s, init, x, j);
    }
  }

  /** A new speaker added after `init` gets the voice after those of the new speakers of `init`. */
  lemma AddDefaultsLast(s: Seeding, init: seq<string>, x: string, j: nat)
    requires Distinct(init) && x !in init && x !in Keys(s.configs)
    requires j == |NewSpeakers(s.configs, init)|
    ensures Get(AddStep(AddDefaults(s, init), x).configs, x) == Some(DefaultConfig(VoiceAt(s.voiceIndex + j)))
  {
    AddDefaultsKeys(s, init);
    assert x !in Keys(s.configs) + NewSpeakers(s.configs, init);
    AddStepNew(AddDefaults(s, init), x);
    SameDefault(Get(AddStep(AddDefaults(s, init), x).configs, x), AddDefaults(s, init).voiceIndex, s.voiceIndex + j);
  }

  /** A speaker without a configuration gets the default one with the current voice of the rotation. */
  lemma AddStepNew(t: Seeding, x: string)
    requires x !in Keys(t.configs)
    ensures Get(AddStep(t, x).configs, x) == Some(DefaultConfig(VoiceAt(t.voiceIndex)))
  {
    assert !Has(t.configs, x);
  }

  lemma SameDefault(g: Option<SpeakerConfig>, a: nat, b: nat)
    requires a == b && g == Some(DefaultConfig(VoiceAt(a)))
    ensures g == Some(DefaultConfig(VoiceAt(b)))
  {
  }

  lemma NewSpeakersPrefix(prev: seq<Entry<SpeakerConfig>>, speakers: seq<string>, j: nat)
    requires Distinct(speakers) && speakers != []
    requires j < |NewSpeakers(prev, speakers[..|speakers| - 1])|
    ensures NewSpeakers(prev, speakers)[j] == NewSpeakers(prev, speakers[..|speakers| - 1])[j]
    ensures NewSpeakers(prev, speakers)[j] != speakers[|speakers| - 1]
  {
    NewSpeakersSnoc(prev, speakers);
    LastNotEarlier(speakers);
    var news := NewSpeakers(prev, speakers[..|speakers| - 1]);
    assert news[j] in news;
  }

  /** `ks` without the keys in `dropped` that are not speakers. */
  function Surviving(ks: seq<string>, dropped: seq<string>, speakers: seq<string>): (r: seq<string>)
    decreases |ks|
  {
    if ks == [] then []
    else
      var init, k := ks[..|ks| - 1], ks[|ks| - 1];
      Surviving(init, dropped, speakers) + (if k in dropped && k !in speakers then [] else [k])
  }

  lemma {:induction false} WithoutSurviving(ks: seq<string>, dropped: seq<string>, speakers: seq<string>, k: string)
    requires k !in speakers
    ensures Without(Surviving(ks, dropped, speakers), k) == Surviving(ks, dropped + [k], speakers)
    decreases |ks|
  {
    if ks != [] {
      var init, x := ks[..|ks| - 1], ks[|ks| - 1];
      WithoutSurviving(init, dropped, speakers, k);
      var tail := if x in dropped && x !in speakers then [] else [x];
      WithoutSplit(Surviving(init, dropped, speakers), tail, k);
      if tail == [x] && x != k {
        assert Without(tail, k) == Without([], k) + [x];
      }
      if tail == [] {
        assert Surviving(init, dropped, speakers) + [] == Surviving(init, dropped, speakers);
      }
    }
  }

  /** Pruning deletes exactly the visited keys that are not speakers: the
      other keys keep their order. */
  lemma {:induction false} PruneKeys(m: JsMap<SpeakerConfig>, ks: seq<string>, speakers: seq<string>)
    ensures Keys(Prune(m, ks, speakers)) == Surviving(Keys(m), ks, speakers)
    decreases |ks|
  {
    if ks == [] {
      SurvivingNone(Keys(m), speakers);
    } else {
      var init, x := ks[..|ks| - 1], ks[|ks| - 1];
      assert ks == init + [x];
      PruneKeys(m, init, speakers);
      if x !in speakers {
        WithoutSurviving(Keys(m), init, speakers, x);
      } else {
        SurvivingSame(Keys(m), init, x, speakers);
      }
    }
  }

  /** Pruning keeps the keys distinct. */
  lemma {:induction false} PruneDistinct(m: JsMap<SpeakerConfig>, ks: seq<string>, speakers: seq<string>)
    requires DistinctKeys(m)
    ensures DistinctKeys(Prune(m, ks, speakers))
    decreases |ks|
  {
    if ks != [] {
      PruneDistinct(m, ks[..|ks| - 1], speakers);
    }
  }

  /** Pruning removes the visited keys that are not speakers; the other entries keep their values. */
  lemma {:induction false} PruneGet(m: JsMap<SpeakerConfig>, ks: seq<string>, speakers: seq<string>, k: string)
    requires DistinctKeys(m)
    ensures Get(Prune(m, ks, speakers), k) == if k in ks && k !in speakers then None else Get(m, k)
    decreases |ks|
  {
    if ks != [] {
      var init, x := ks[..|ks| - 1], ks[|ks| - 1];
      assert ks == init + [x];
      PruneGet(m, init, speakers, k);
      if x !in speakers {
        PruneDistinct(m, init, speakers);
        DeleteGet(Prune(m, init, speakers), x, k);
      }
    }
  }

  lemma {:induction false} SurvivingNone(ks: seq<string>, speakers: seq<string>)
    ensures Surviving(ks, [], speakers) == ks
    decreases |ks|
  {
    if ks != [] {
      SurvivingNone(ks[..|ks| - 1], speakers);
      assert ks == ks[..|ks| - 1] + [ks[|ks| - 1]];
    }
  }

  lemma {:induction false} SurvivingSame(ks: seq<string>, dropped: seq<string>, x: string, speakers: seq<string>)
    requires x in speakers
    ensures Surviving(ks, dropped + [x], speakers) == Surviving(ks, dropped, speakers)
    decreases |ks|
  {
    if ks != [] {
      SurvivingSame(ks[..|ks| - 1], dropped, x, speakers);
    }
  }

  /** The keys of `ks` that are speakers, in order. */
  function KeptKeys(ks: seq<string>, speakers: seq<string>): (r: seq<string>)
    ensures forall x :: x in r <==> x in ks && x in speakers
    decreases |ks|
  {
    if ks == [] then []
    else
      var init, k := ks[..|ks| - 1], ks[|ks| - 1];
      assert ks == init + [k];
      KeptKeys(init, speakers) + (if k in speakers then [k] else [])
  }

  lemma {:induction false} SurvivingAll(ks: seq<string>, speakers: seq<string>)
    ensures Surviving(ks, ks, speakers) == KeptKeys(ks, speakers)
    decreases |ks|
  {
    if ks != [] {
      var init := ks[..|ks| - 1];
      SurvivingWider(init, init, [ks[|ks| - 1]], speakers);
      assert ks == init + [ks[|ks| - 1]];
      SurvivingAll(init, speakers);
    }
  }

  /** Dropping more keys than occur makes no difference. */
  lemma {:induction false} SurvivingWider(ks: seq<string>, dropped: seq<string>, more: seq<string>, speakers: seq<string>)
    requires forall x | x in ks :: x in dropped
    ensures Surviving(ks, dropped + more, speakers) == Surviving(ks, dropped, speakers)
    decreases |ks|
  {
    if ks != [] {
      SurvivingWider(ks[..|ks| - 1], dropped, more, speakers);
    }
  }

  lemma {:induction false} KeptConcat(a: seq<string>, b: seq<string>, speakers: seq<string>)
    ensures KeptKeys(a + b, speakers) == KeptKeys(a, speakers) + KeptKeys(b, speakers)
    decreases |b|
  {
    if b == [] {
      assert a + b == a;
    } else {
      var init := b[..|b| - 1];
      assert (a + b)[..|a + b| - 1] == a + init;
      KeptConcat(a, init, speakers);
    }
  }

  lemma {:induction false} KeptAll(ks: seq<string>, speakers: seq<string>)
    requires forall x | x in ks :: x in speakers
    ensures KeptKeys(ks, speakers) == ks
    decreases |ks|
  {
    if ks != [] {
      KeptAll(ks[..|ks| - 1], speakers);
      assert ks == ks[..|ks| - 1] + [ks[|ks| - 1]];
    }
  }

  /** The configured speakers after reconciliation: the previous ones still in
      the script, in their old order, then the new ones in script order. */
  lemma ReconciledKeys(prev: JsMap<SpeakerConfig>, speakers: seq<string>)
    requires Distinct(speakers)
    ensures Keys(Reconciled(prev, speakers)) == KeptKeys(Keys(prev), speakers) + NewSpeakers(prev, speakers)
  {
    var news := NewSpeakers(prev, speakers);
    AddDefaultsKeys(Seeding(prev, 0), speakers);
    var added := AddDefaults(Seeding(prev, 0), speakers).configs;
    PruneKeys(added, Keys(added), speakers);
    SurvivingAll(Keys(added), speakers);
    KeptConcat(Keys(prev), news, speakers);
    KeptAll(news, speakers);
  }

  /** A speaker has a configuration after reconciliation exactly when it is a speaker of the script. */
  lemma ReconciledDomain(prev: JsMap<SpeakerConfig>, speakers: seq<string>, k: string)
    requires Distinct(speakers)
    ensures Get(Reconciled(prev, speakers), k).Some? <==> k in speakers
  {
    ReconciledKeys(prev, speakers);
  }

  /** A speaker that stays in the script keeps its configuration unchanged. */
  lemma ReconciledKeeps(prev: JsMap<SpeakerConfig>, speakers: seq<string>, k: string)
    requires DistinctKeys(prev) && Distinct(speakers)
    requires k in speakers && k in Keys(prev)
    ensures Get(Reconciled(prev, speakers), k) == Get(prev, k)
  {
    var added := AddDefaults(Seeding(prev, 0), speakers).configs;
    AddDefaultsDistinct(Seeding(prev, 0), speakers);
    PruneGet(added, Keys(added), speakers, k);
    AddDefaultsKeeps(Seeding(prev, 0), speakers, k);
  }

  /** The `j`-th new speaker gets the default configuration with the `j`-th
      voice of the rotation: the counter advances only for new speakers. */
  lemma ReconciledDefaults(prev: JsMap<SpeakerConfig>, speakers: seq<string>, j: nat)
    requires DistinctKeys(prev) && Distinct(speakers)
    requires j < |NewSpeakers(prev, speakers)|
    ensures Get(Reconciled(prev, speakers), NewSpeakers(prev, speakers)[j])
            == Some(DefaultConfig(AVAILABLE_VOICES[j % |AVAILABLE_VOICES|].id))
  {
    var k := NewSpeakers(prev, speakers)[j];
    var added := AddDefaults(Seeding(prev, 0), speakers).configs;
    AddDefaultsDistinct(Seeding(prev, 0), speakers);
    PruneGet(added, Keys(added), speakers, k);
    AddDefaultsNew(Seeding(prev, 0), speakers, j);
  }

  /** After a script is parsed and the configurations reconciled, every
      dialogue line's speaker has a configuration, and nobody else has one. */
  lemma ParsedSpeakersConfigured(prev: JsMap<SpeakerConfig>, scriptText: string, k: string)
    ensures var p := ScriptParser.Parse(scriptText);
            Get(Reconciled(prev, p.speakers), k).Some? <==> exists l | l in p.lines :: l.speaker == k
  {
    var p := ScriptParser.Parse(scriptText);
    ScriptParser.ParsedSpeakers(Strings.Split(scriptText, '\n'));
    var names := ScriptParser.SpeakerNames(p.lines);
    ReconciledDomain(prev, p.speakers, k);
    if k in names {
      var i :| 0 <= i < |names| && names[i] == k;
      assert p.lines[i] in p.lines;
    }
  }
}
