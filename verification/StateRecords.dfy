/** The saved State, its validity guard, and the frozen layouts older saves may hold. */
module StateRecords {
  import opened Core

  type Byte = x: nat | x < 256

  /** A stored float: only its finiteness and its value matter to the guard. */
  datatype Float = Finite(value: real) | NotFinite

  /** Flags are bytes here: the guard checks the raw byte before trusting it as a bool. */
  datatype Settings = Settings(
    version: nat, enabledCategories: nat, threshold: nat, region: nat, brightness: nat, character: nat,
    sound: Byte, lowFeeding: Byte, reducedAnimation: Byte, research: Byte, rawSsid: Byte, onboarded: Byte,
    ibeaconAlerts: Byte, name: seq<char>, portrait: Byte, rotationLocked: Byte, alertCategories: nat)

  datatype Pet = Pet(xp: nat, meals: nat, unique: nat, categoryMask: nat, lifetimeMeals: seq<nat>,
                     fullness: nat, mood: nat, decayMs: nat)

  datatype Calibration = Calibration(xa: Float, xb: Float, xc: Float, ya: Float, yb: Float, yc: Float, valid: Byte)

  datatype MealStamp = MealStamp(hash: nat, remainingMs: nat)

  datatype Battery = Battery(adc: seq<nat>, millivolts: seq<nat>, enabled: Byte)

  datatype Scent = Scent(firstUtc: nat, lastUtc: nat, observations: nat, bestScore: nat, lastScore: nat, strongest: int)

  datatype Ignored = Ignored(hash: nat, category: nat)

  datatype Companion = Companion(version: nat, scents: seq<Scent>, ignored: seq<Ignored>, equipped: nat, unlocked: bv8)

  datatype Appearance = Appearance(version: nat, theme: nat, scene: nat, speech: nat, compact: nat, inverted: nat,
                                   dimMinutes: nat, saverMinutes: nat, offMinutes: nat)

  datatype State = State(
    version: nat, settings: Settings, pet: Pet, calibration: Calibration, recent: seq<MealStamp>, mealKey: seq<Byte>,
    boots: nat, resetReason: nat, battery: Battery, companion: Companion, appearance: Appearance)

  const UTC_MAX: nat := 4102444799
  const CATEGORY_LIMIT: nat := 0x8_0000
  const IBEACON_BIT: nat := 0x2000
  const OUTFIT_COUNT: nat := 6
  const IGNORE_CAPACITY: nat := 64
  const STAMP_COUNT: nat := 32

  // ---- The guard ----

  predicate Flag(b: Byte) {
    b <= 1
  }

  predicate SaneFloat(f: Float) {
    f.Finite? && -100000.0 <= f.value <= 100000.0
  }

  predicate ValidCalibration(c: Calibration) {
    && Flag(c.valid)
    && (c.valid == 1 ==> SaneFloat(c.xa) && SaneFloat(c.xb) && SaneFloat(c.xc)
                         && SaneFloat(c.ya) && SaneFloat(c.yb) && SaneFloat(c.yc))
  }

  predicate ValidName(name: seq<char>) {
    && |name| == 13 && name[12] == '\0'
    && forall i | 0 <= i < 13 :: name[i] == '\0' || 32 as char <= name[i] <= 126 as char
  }

  /** valid_state: what every version of the saved state must satisfy. */
  predicate ValidBase(s: Settings, pet: Pet, c: Calibration, settingsVersion: nat) {
    && Flag(s.sound) && Flag(s.lowFeeding) && Flag(s.reducedAnimation) && Flag(s.research) && Flag(s.rawSsid)
    && Flag(s.onboarded) && Flag(s.ibeaconAlerts)
    && ValidCalibration(c)
    && s.version == settingsVersion && s.character < 6 && s.region < 2 && 1 <= s.brightness <= 100
    && pet.fullness <= 100 && pet.mood <= 100
    && (s.threshold == 20 || s.threshold == 50 || s.threshold == 80)
    && s.enabledCategories < CATEGORY_LIMIT && ValidName(s.name)
  }

  predicate ValidIgnores(list: seq<Ignored>) {
    && (forall i | 0 <= i < |list| :: list[i].category < CATEGORY_COUNT)
    && (forall i, j | 0 <= j < i < |list| && list[i].hash != 0 :: list[j].hash != list[i].hash)
  }

  predicate ValidScent(s: Scent) {
    s.bestScore <= 100 && s.lastScore <= s.bestScore && s.firstUtc <= UTC_MAX && s.lastUtc <= UTC_MAX
  }

  predicate ValidCompanion(c: Companion) {
    && c.version == 2 && c.equipped < OUTFIT_COUNT && c.unlocked & 1 != 0 && c.unlocked >> 6 == 0
    && c.unlocked & (1 << c.equipped) != 0
    && (forall i | 0 <= i < |c.scents| :: ValidScent(c.scents[i]))
    && ValidIgnores(c.ignored)
  }

  predicate ValidTimeout(minutes: nat) {
    minutes in [0, 1, 2, 5, 10, 15, 30, 60]
  }

  predicate ValidAppearance(a: Appearance) {
    && a.version == 3 && a.theme < 3 && a.scene < 3 && a.speech < 3 && a.compact < 2 && a.inverted < 2
    && ValidTimeout(a.dimMinutes) && ValidTimeout(a.saverMinutes) && ValidTimeout(a.offMinutes)
  }

  predicate ValidBattery(b: Battery) {
    && |b.adc| == |b.millivolts| == 3
    && b.adc[0] >= 50 && b.adc[2] <= 4095 && b.adc[0] + 20 < b.adc[1] && b.adc[1] + 20 < b.adc[2]
    && b.millivolts[0] >= 2500 && b.millivolts[2] <= 4500
    && b.millivolts[0] + 100 < b.millivolts[1] && b.millivolts[1] + 100 < b.millivolts[2]
  }

  /** valid_current: the guard in front of every save and behind every load. */
  predicate ValidCurrent(s: State) {
    && s.version == 5 && ValidBase(s.settings, s.pet, s.calibration, 2)
    && ValidCompanion(s.companion) && ValidAppearance(s.appearance)
    && Flag(s.settings.portrait) && Flag(s.settings.rotationLocked) && Flag(s.battery.enabled)
    && s.settings.alertCategories < CATEGORY_LIMIT
    && (s.battery.enabled == 1 ==> ValidBattery(s.battery))
    && (forall i | 0 <= i < |s.recent| :: s.recent[i].remainingMs <= 1800000)
    && (exists i | 0 <= i < |s.mealKey| :: s.mealKey[i] != 0)
  }

  // ---- Defaults ----

  const DEFAULT_SETTINGS := Settings(2, CATEGORY_LIMIT - 1, 50, 0, 70, 0, 0, 0, 0, 0, 0, 0, 0,
                                     "SCOUT\0\0\0\0\0\0\0\0", 0, 1, CATEGORY_LIMIT - 1 - IBEACON_BIT)
  const DEFAULT_PET := Pet(0, 0, 0, 0, Repeat(0, CATEGORY_COUNT), 70, 70, 0)
  const DEFAULT_CALIBRATION := Calibration(Finite(0.0), Finite(0.0), Finite(0.0), Finite(0.0), Finite(0.0), Finite(0.0),
      0)
  const DEFAULT_COMPANION := Companion(2, Repeat(Scent(0, 0, 0, 0, 0, -127), CATEGORY_COUNT),
                                       Repeat(Ignored(0, 0), IGNORE_CAPACITY), 0, 1)
  const DEFAULT_APPEARANCE := Appearance(3, 0, 0, 1, 0, 0, 2, 5, 15)
  const DEFAULT_STATE := State(5, DEFAULT_SETTINGS, DEFAULT_PET, DEFAULT_CALIBRATION,
                               Repeat(MealStamp(0, 0), STAMP_COUNT), Repeat(0, 32), 0, 0,
                               Battery([0, 0, 0], [3300, 3700, 4200], 0), DEFAULT_COMPANION, DEFAULT_APPEARANCE)

  // ---- Migration ----

  function Discoveries(scents: seq<Scent>): nat {
    if scents == [] then 0
    else Discoveries(scents[..|scents| - 1]) + if scents[|scents| - 1].observations != 0 then 1 else 0
  }

  /** Outfits the experience and the discoveries have earned are added; none is ever taken away. */
  function Unlock(c: Companion, xp: nat): Companion {
    var found := Discoveries(c.scents);
    var earned: bv8 := 1 | (if xp >= 25 then 2 else 0) | (if xp >= 100 then 4 else 0)
                       | (if found >= 5 then 8 else 0) | (if xp >= 300 then 16 else 0)
                       | (if found >= 10 then 32 else 0);
    c.(unlocked := c.unlocked | earned)
  }

  /** A V1 companion: version 1 and sixteen ignore slots. */
  function MigrateCompanion(past: Companion): Option<Companion> {
    if past.version != 1 || |past.ignored| > IGNORE_CAPACITY then None
    else
      var next := past.(version := 2, ignored := past.ignored
          + Repeat(Ignored(0, 0), IGNORE_CAPACITY - |past.ignored|));
      if ValidCompanion(next) then Some(next) else None
  }

  function MigrateAppearance1(version: nat, theme: nat, scene: nat, speech: nat, compact: nat): Option<Appearance> {
    if version != 1 || theme >= 3 || scene >= 3 || speech >= 3 || compact >= 2 then None
    else Some(DEFAULT_APPEARANCE.(theme := theme, scene := scene, speech := speech, compact := compact))
  }

  function MigrateAppearance2(version: nat, theme: nat, scene: nat, speech: nat, compact: nat,
      inverted: nat): Option<Appearance> {
    if version != 2 || inverted >= 2 then None
    else match MigrateAppearance1(1, theme, scene, speech, compact)
      case None => None
      case Some(a) => Some(a.(inverted := inverted))
  }

  /** The single-blob states saved before generations existed (StateV1 and StateV2). */
  datatype LegacyState = LegacyState(
    version: nat, settings: Settings, pet: Pet, calibration: Calibration, recent: seq<MealStamp>, mealKey: seq<Byte>,
    boots: nat, resetReason: nat)

  function MigrateV2(past: LegacyState): Option<State> {
    if past.version != 2 || !ValidBase(past.settings, past.pet, past.calibration, 2)
       || !Flag(past.settings.portrait) || !Flag(past.settings.rotationLocked)
       || past.settings.alertCategories >= CATEGORY_LIMIT then None
    else Some(DEFAULT_STATE.(settings := past.settings, pet := past.pet, calibration := past.calibration,
                             recent := past.recent, mealKey := past.mealKey, boots := past.boots,
                             resetReason := past.resetReason))
  }

  /** The V1 settings lack the last three fields: those take their defaults. */
  function MigrateV1(past: LegacyState): Option<State> {
    if past.version != 1 || !ValidBase(past.settings, past.pet, past.calibration, 1) then None
    else
      var settings := past.settings.(version := 2, portrait := 0, rotationLocked := 1,
        alertCategories := DEFAULT_SETTINGS.alertCategories + if past.settings.ibeaconAlerts == 1 then IBEACON_BIT
            else 0);
      Some(DEFAULT_STATE.(settings := settings, pet := past.pet, calibration := past.calibration,
                          recent := past.recent, mealKey := past.mealKey, boots := past.boots,
                          resetReason := past.resetReason))
  }

  // ---- What migration keeps ----

  lemma UnlockKeepsValid(c: Companion, xp: nat)
    requires ValidCompanion(c)
    ensures ValidCompanion(Unlock(c, xp))
  {
    var earned: bv8 := 1 | (if xp >= 25 then 2 else 0) | (if xp >= 100 then 4 else 0)
                       | (if Discoveries(c.scents) >= 5 then 8 else 0) | (if xp >= 300 then 16 else 0)
                       | (if Discoveries(c.scents) >= 10 then 32 else 0);
    assert earned >> 6 == 0;
    UnlockBits(c.unlocked, earned, 1 << c.equipped);
  }

  lemma UnlockBits(unlocked: bv8, earned: bv8, worn: bv8)
    requires unlocked & 1 != 0 && unlocked >> 6 == 0 && unlocked & worn != 0 && earned >> 6 == 0
    ensures (unlocked | earned) & 1 != 0 && (unlocked | earned) >> 6 == 0 && (unlocked | earned) & worn != 0
  {
  }
}
