/** What a boot finds in the saves of every version, part by part and field by field. */
module StateFacts {
  import opened Core
  import opened StateRecords
  import opened StateStore

  // ---- The single blobs of the first two versions ----

  const ALERTS: nat := 0x7_DFFF
  const IBEACON_ALERT: nat := 0x2000

  function FromV2(past: LegacyState): State {
    State(5, past.settings, past.pet, past.calibration, past.recent, past.mealKey, past.boots, past.resetReason,
          DEFAULT_STATE.battery, DEFAULT_COMPANION, DEFAULT_APPEARANCE)
  }

  /** V1 settings know nothing of the portrait, the rotation lock and the alerts. */
  function SettingsFromV1(s: Settings): Settings {
    Settings(2, s.enabledCategories, s.threshold, s.region, s.brightness, s.character, s.sound, s.lowFeeding,
             s.reducedAnimation, s.research, s.rawSsid, s.onboarded, s.ibeaconAlerts, s.name, 0, 1,
             if s.ibeaconAlerts == 1 then ALERTS + IBEACON_ALERT else ALERTS)
  }

  function FromV1(past: LegacyState): State {
    State(5, SettingsFromV1(past.settings), past.pet, past.calibration, past.recent, past.mealKey, past.boots,
          past.resetReason, DEFAULT_STATE.battery, DEFAULT_COMPANION, DEFAULT_APPEARANCE)
  }

  /** A V2 save is found whole, in every field it has, if the state it makes is valid; it hides a V1 save. */
  lemma V2Found(flash: Flash, past: LegacyState)
    requires flash.word.None? && flash.v2 == Present(past)
    ensures Live(flash) == if past.version == 2 && ValidCurrent(FromV2(past)) then Whole(FromV2(past)) else Unreadable
  {
    hide ValidBase, ValidCompanion, ValidAppearance;
    CurrentBase(past.settings, FromV2(past));
    DefaultPartsValid();
  }

  lemma V1Found(flash: Flash, past: LegacyState)
    requires flash.word.None? && flash.v2.Absent? && flash.v1 == Present(past)
    ensures Live(flash) == if past.version == 1 && past.settings.version == 1 && ValidCurrent(FromV1(past))
                           then Whole(FromV1(past)) else Unreadable
  {
    hide ValidCompanion, ValidAppearance, ValidName, ValidCalibration;
    DefaultPartsValid();
  }

  lemma CurrentBase(s: Settings, t: State)
    requires t.settings == s
    ensures ValidCurrent(t) ==> ValidBase(s, t.pet, t.calibration, 2)
  {
  }

  lemma DefaultPartsValid()
    ensures ValidCompanion(DEFAULT_COMPANION) && ValidAppearance(DEFAULT_APPEARANCE)
  {
  }

  /** A board without a save is fresh; a save of the wrong size is refused. */
  lemma NothingFound(flash: Flash)
    requires flash.word.None?
    ensures Live(flash).Fresh? <==> flash.v2.Absent? && flash.v1.Absent?
    ensures flash.v2.WrongSize? || (flash.v2.Absent? && flash.v1.WrongSize?) ==> Live(flash).Unreadable?
  {
    hide MigrateV1, MigrateV2, ValidCurrent;
  }

  // ---- Generations ----

  /** The companion that a stored part stands for: a V1 part has fewer ignore slots. */
  ghost predicate CompanionOf(p: Payload, c: Companion) {
    match p
    case CompanionPart(x) => c == x
    case CompanionPartV1(x) =>
      && x.version == 1 && |x.ignored| <= IGNORE_CAPACITY && |c.ignored| == IGNORE_CAPACITY
      && c.version == 2 && c.scents == x.scents && c.equipped == x.equipped && c.unlocked == x.unlocked
      && c.ignored[..|x.ignored|] == x.ignored
      && forall i | |x.ignored| <= i < IGNORE_CAPACITY :: c.ignored[i] == Ignored(0, 0)
    case _ => false
  }

  /** The appearance: the layouts of the first two versions lack the timeouts, the first also the colours. */
  ghost predicate LookOf(p: Payload, a: Appearance) {
    match p
    case Look12(v, theme, scene, speech, compact, inverted, dim, saver, off) =>
      if v == 2 then a == Appearance(3, theme, scene, speech, compact, inverted, 2, 5, 15)
      else v == 3 && a == Appearance(3, theme, scene, speech, compact, inverted, dim, saver, off)
    case Look8(v, theme, scene, speech, compact) =>
      v == 1 && a == Appearance(3, theme, scene, speech, compact, 0, 2, 5, 15)
    case _ => false
  }

  ghost predicate HasParts(slots: map<Slot, Blob>, gen: nat, config: Payload, pet: Payload) {
    && ReadPart(slots, SettingsSpace, gen) == Some(config) && config.ConfigPart?
    && ReadPart(slots, PetSpace, gen) == Some(pet) && pet.PetPart?
  }

  /** s has the fields of these parts. */
  ghost predicate Carries(s: State, config: Payload, pet: Payload, boots: nat, reason: nat)
    requires config.ConfigPart? && pet.PetPart?
  {
    && s.version == 5 && s.settings == config.settings && s.calibration == config.calibration
    && s.battery == config.battery && s.pet == pet.pet && s.recent == pet.recent && s.mealKey == pet.key
    && s.boots == boots && s.resetReason == reason
  }

  lemma LookRead(slots: map<Slot, Blob>, gen: nat, look: Payload, a: Appearance)
    requires ReadPart(slots, LookSpace, gen) == Some(look)
    ensures LookOf(look, a) && ValidAppearance(a) <==> ReadLook(slots, gen) == Some(a)
  {
    hide ReadPart;
  }

  lemma CompanionRead(slots: map<Slot, Blob>, gen: nat, part: Payload, c: Companion)
    requires ReadPart(slots, CompanionSpace, gen) == Some(part)
    ensures CompanionOf(part, c) && ValidCompanion(c) ==> ReadCompanion(slots, gen) == Some(c)
    ensures ReadCompanion(slots, gen) == Some(c) ==> CompanionOf(part, c)
  {
    hide ReadPart, ValidCompanion;
    if part.CompanionPartV1? && CompanionOf(part, c) {
      assert c.ignored == part.past.ignored + Repeat(Ignored(0, 0), IGNORE_CAPACITY - |part.past.ignored|);
    }
  }

  /** A generation of the current version, its companion and appearance of any: found in every field, if valid. */
  lemma GenerationFound(slots: map<Slot, Blob>, gen: nat, config: Payload, pet: Payload, boots: nat, reason: nat,
      companion: Payload, look: Payload, s: State)
    requires HasParts(slots, gen, config, pet) && ReadPart(slots, SystemSpace, gen) == Some(BootPart(boots, reason, 5))
    requires ReadPart(slots, CompanionSpace, gen) == Some(companion) && ReadPart(slots, LookSpace, gen) == Some(look)
    ensures ReadGeneration(slots, gen) == Some(s) <==>
              && Carries(s, config, pet, boots, reason) && CompanionOf(companion, s.companion)
              && LookOf(look, s.appearance) && ValidCurrent(s)
  {
    hide ReadPart, ReadLook, ReadCompanion, LookOf, CompanionOf, ValidBase, ValidCompanion, ValidAppearance,
        ValidBattery;
    var c, a := ReadCompanion(slots, gen), ReadLook(slots, gen);
    CompanionRead(slots, gen, companion, s.companion);
    LookRead(slots, gen, look, s.appearance);
    if c.Some? && a.Some? {
      LookRead(slots, gen, look, a.value);
    }
  }

  /** A generation of version 4 has no appearance: that is the default one. */
  lemma Generation4Found(slots: map<Slot, Blob>, gen: nat, config: Payload, pet: Payload, boots: nat, reason: nat,
      companion: Payload, s: State)
    requires HasParts(slots, gen, config, pet) && ReadPart(slots, SystemSpace, gen) == Some(BootPart(boots, reason, 4))
    requires ReadPart(slots, CompanionSpace, gen) == Some(companion)
    ensures ReadGeneration(slots, gen) == Some(s) <==>
              && Carries(s, config, pet, boots, reason) && CompanionOf(companion, s.companion)
              && s.appearance == DEFAULT_APPEARANCE && ValidCurrent(s)
  {
    hide ReadPart, ReadLook, ReadCompanion, CompanionOf, ValidBase, ValidCompanion, ValidAppearance, ValidBattery;
    CompanionRead(slots, gen, companion, s.companion);
  }

  /** The outfits that experience alone has earned. */
  function EarnedBy(xp: nat): bv8 {
    if xp >= 300 then 23 else if xp >= 100 then 7 else if xp >= 25 then 3 else 1
  }

  /** A generation of version 3 has neither: the companion is new, with the outfits its experience has earned. */
  lemma Generation3Found(slots: map<Slot, Blob>, gen: nat, config: Payload, pet: Payload, boots: nat, reason: nat,
      s: State)
    requires HasParts(slots, gen, config, pet) && ReadPart(slots, SystemSpace, gen) == Some(BootPartV3(boots, reason))
    ensures ReadGeneration(slots, gen) == Some(s) <==>
              && Carries(s, config, pet, boots, reason) && s.appearance == DEFAULT_APPEARANCE
              && s.companion == DEFAULT_COMPANION.(unlocked := EarnedBy(pet.pet.xp)) && ValidCurrent(s)
  {
    hide ReadPart, ReadLook, ReadCompanion, ValidBase, ValidCompanion, ValidAppearance, ValidBattery, Unlock;
    NewUnlock(pet.pet.xp);
  }

  lemma {:induction false} NothingDiscovered(n: nat)
    ensures Discoveries(Repeat(Scent(0, 0, 0, 0, 0, -127), n)) == 0
  {
    if n > 0 {
      var scents := Repeat(Scent(0, 0, 0, 0, 0, -127), n);
      assert scents[..n - 1] == Repeat(Scent(0, 0, 0, 0, 0, -127), n - 1);
      NothingDiscovered(n - 1);
    }
  }

  lemma NewUnlock(xp: nat)
    ensures Unlock(DEFAULT_COMPANION, xp) == DEFAULT_COMPANION.(unlocked := EarnedBy(xp))
  {
    NothingDiscovered(CATEGORY_COUNT);
  }

  /** Outfit by outfit, what unlocks it; none is taken away. */
  lemma UnlockMeans(c: Companion, xp: nat)
    ensures var found, now := Discoveries(c.scents), Unlock(c, xp).unlocked;
            && now & 1 != 0
            && (now & 2 != 0 <==> c.unlocked & 2 != 0 || xp >= 25)
            && (now & 4 != 0 <==> c.unlocked & 4 != 0 || xp >= 100)
            && (now & 8 != 0 <==> c.unlocked & 8 != 0 || found >= 5)
            && (now & 16 != 0 <==> c.unlocked & 16 != 0 || xp >= 300)
            && (now & 32 != 0 <==> c.unlocked & 32 != 0 || found >= 10)
            && now >> 6 == c.unlocked >> 6 && Unlock(c, xp) == c.(unlocked := now)
  {
  }

  /** The discoveries are the categories that have been observed. */
  lemma {:induction false} DiscoveriesCount(scents: seq<Scent>)
    ensures Discoveries(scents) == |set i | 0 <= i < |scents| && scents[i].observations != 0|
  {
    if scents != [] {
      var n := |scents| - 1;
      DiscoveriesCount(scents[..n]);
      var before := set i | 0 <= i < n && scents[..n][i].observations != 0;
      var all := set i | 0 <= i < |scents| && scents[i].observations != 0;
      assert all == before + if scents[n].observations != 0 then {n} else {};
    }
  }

  // ---- What is never read ----

  /** The slot holds a part of this generation whose checksum fits. */
  predicate Intact(slots: map<Slot, Blob>, space: Space, gen: nat) {
    var slot := Slot(space, if gen % 2 == 1 then 1 else 0);
    slot in slots && slots[slot].sealed && slots[slot].generation == gen && slots[slot].version == 1
  }

  /** A generation of which a part is missing, damaged or of another save is not found. */
  lemma DamagedRefused(flash: Flash, gen: nat)
    requires flash.word == Some(gen)
    requires !(Intact(flash.slots, SettingsSpace, gen) && Intact(flash.slots, PetSpace, gen)
               && Intact(flash.slots, SystemSpace, gen))
    ensures Live(flash).Unreadable?
  {
    hide ReadLook, ReadCompanion, ValidCurrent;
  }

  lemma DamagedCompanionRefused(flash: Flash, gen: nat, boots: nat, reason: nat, version: nat)
    requires flash.word == Some(gen)
    requires ReadPart(flash.slots, SystemSpace, gen) == Some(BootPart(boots, reason, version))
    requires !Intact(flash.slots, CompanionSpace, gen) || (version == 5 && !Intact(flash.slots, LookSpace, gen))
             || version < 4 || version > 5
    ensures Live(flash).Unreadable?
  {
    hide ValidCurrent;
  }

  // ---- What the guard promises ----

  lemma GuardPromises(s: State)
    requires ValidCurrent(s)
    ensures 1 <= s.settings.brightness <= 100 && s.settings.character <= 5 && s.settings.region <= 1
    ensures s.settings.threshold in {20, 50, 80} && s.pet.fullness <= 100 && s.pet.mood <= 100
    ensures s.settings.enabledCategories < 524288 && s.settings.alertCategories < 524288
    ensures |s.settings.name| == 13 && s.settings.name[12] == 0 as char
            && forall i | 0 <= i < 13 :: s.settings.name[i] == 0 as char || ' ' <= s.settings.name[i] <= '~'
    ensures forall i | 0 <= i < |s.recent| :: s.recent[i].remainingMs <= 1800000
    ensures exists i :: 0 <= i < |s.mealKey| && s.mealKey[i] != 0
    ensures s.companion.equipped <= 5 && s.companion.unlocked & (1 << s.companion.equipped) != 0
    ensures forall x | x in s.companion.scents :: x.lastScore <= x.bestScore <= 100
    ensures forall i, j | 0 <= i < j < |s.companion.ignored| && s.companion.ignored[i].hash != 0 ::
              s.companion.ignored[i].hash != s.companion.ignored[j].hash
    ensures forall x | x in s.companion.ignored :: x.category <= 18
    ensures s.battery.enabled == 1 ==> 50 <= s.battery.adc[0] < s.battery.adc[1] < s.battery.adc[2] <= 4095
    ensures s.battery.enabled == 1 ==>
              2500 <= s.battery.millivolts[0] < s.battery.millivolts[1] < s.battery.millivolts[2] <= 4500
    ensures s.appearance.theme <= 2 && s.appearance.scene <= 2 && s.appearance.speech <= 2
    ensures Timeout(s.appearance.dimMinutes) && Timeout(s.appearance.saverMinutes) && Timeout(s.appearance.offMinutes)
  {
    forall i, j | 0 <= i < j < |s.companion.ignored| && s.companion.ignored[i].hash != 0
      ensures s.companion.ignored[i].hash != s.companion.ignored[j].hash
    {
      assert s.companion.ignored[j].hash != 0 ==> s.companion.ignored[i].hash != s.companion.ignored[j].hash;
    }
  }

  predicate Timeout(minutes: nat) {
    minutes in {0, 1, 2, 5, 10, 15, 30, 60}
  }

  /** Whatever the user chooses within those limits, and the pet does within its own, the state may be saved. */
  lemma ChoicesStayValid(s: State, settings: Settings, pet: Pet, a: Appearance)
    requires ValidCurrent(s) && settings.threshold in {20, 50, 80} && 1 <= settings.brightness <= 100
    requires settings.character <= 5 && settings.region <= 1 && pet.fullness <= 100 && pet.mood <= 100
    requires settings.enabledCategories < 524288 && settings.alertCategories < 524288
    requires settings == s.settings.(threshold := settings.threshold, brightness := settings.brightness,
               character := settings.character, region := settings.region,
               enabledCategories := settings.enabledCategories, alertCategories := settings.alertCategories)
    requires a.theme <= 2 && a.scene <= 2 && a.speech <= 2
    requires Timeout(a.dimMinutes) && Timeout(a.saverMinutes) && Timeout(a.offMinutes)
    requires a == s.appearance.(theme := a.theme, scene := a.scene, speech := a.speech, dimMinutes := a.dimMinutes,
               saverMinutes := a.saverMinutes, offMinutes := a.offMinutes)
    ensures ValidCurrent(s.(settings := settings, pet := pet, appearance := a))
  {
    hide ValidCompanion, ValidName, ValidBattery, ValidCalibration;
  }
}
