/** Crash-safe saving: one State in five parts, two slots each, published by one generation word. */
module StateStore {
  import opened Core
  import opened StateRecords

  const GENERATION_LIMIT: nat := 0x1_0000_0000

  datatype Space = SettingsSpace | PetSpace | SystemSpace | CompanionSpace | LookSpace

  datatype Slot = Slot(space: Space, parity: nat)

  /**
   * The value bytes of a stored part. Constructors are the layouts of different sizes, so a read
   * for one layout refuses the others. Look12 is both AppearanceV2 and the current Appearance:
   * they have the same size and only the version tells them apart.
   */
  datatype Payload =
    | ConfigPart(settings: Settings, calibration: Calibration, battery: Battery)
    | PetPart(pet: Pet, recent: seq<MealStamp>, key: seq<Byte>)
    | BootPartV3(boots: nat, reason: nat)
    | BootPart(boots: nat, reason: nat, version: nat)
    | CompanionPartV1(past: Companion)
    | CompanionPart(companion: Companion)
    | Look8(version: nat, theme: nat, scene: nat, speech: nat, compact: nat)
    | Look12(version: nat, theme: nat, scene: nat, speech: nat, compact: nat, inverted: nat,
             dimMinutes: nat, saverMinutes: nat, offMinutes: nat)
    | Foreign

  /** An envelope as it lies in flash; sealed says whether the stored CRC fits the value. */
  datatype Blob = Blob(version: nat, generation: nat, sealed: bool, value: Payload)

  datatype Legacy = Absent | WrongSize | Present(state: LegacyState)

  datatype Flash = Flash(slots: map<Slot, Blob>, word: Option<nat>, v2: Legacy, v1: Legacy)

  // ---- Reading ----

  function ReadPart(slots: map<Slot, Blob>, space: Space, gen: nat): Option<Payload> {
    var slot := Slot(space, gen % 2);
    if slot in slots && slots[slot].version == 1 && slots[slot].generation == gen && slots[slot].sealed
    then Some(slots[slot].value) else None
  }

  function ReadCompanion(slots: map<Slot, Blob>, gen: nat): Option<Companion> {
    match ReadPart(slots, CompanionSpace, gen)
    case Some(CompanionPart(c)) => Some(c)
    case Some(CompanionPartV1(c)) => MigrateCompanion(c)
    case _ => None
  }

  function ReadLook(slots: map<Slot, Blob>, gen: nat): Option<Appearance> {
    match ReadPart(slots, LookSpace, gen)
    case Some(Look12(v, t, c, s, k, i, dim, saver, off)) =>
      var a := Appearance(v, t, c, s, k, i, dim, saver, off);
      if ValidAppearance(a) then Some(a) else MigrateAppearance2(v, t, c, s, k, i)
    case Some(Look8(v, t, c, s, k)) => MigrateAppearance1(v, t, c, s, k)
    case _ => None
  }

  function Assemble(config: Payload, pet: Payload, boots: nat, reason: nat, companion: Companion,
      look: Appearance): State
    requires config.ConfigPart? && pet.PetPart?
  {
    State(5, config.settings, pet.pet, config.calibration, pet.recent, pet.key, boots, reason,
          config.battery, companion, look)
  }

  function Guarded(s: State): Option<State> {
    if ValidCurrent(s) then Some(s) else None
  }

  /** read_generation: the State whose five parts all carry this generation. */
  function ReadGeneration(slots: map<Slot, Blob>, gen: nat): Option<State> {
    var config := ReadPart(slots, SettingsSpace, gen);
    var pet := ReadPart(slots, PetSpace, gen);
    if !(config.Some? && config.value.ConfigPart? && pet.Some? && pet.value.PetPart?) then None
    else match ReadPart(slots, SystemSpace, gen)
      case Some(BootPart(boots, reason, version)) =>
        if version != 4 && version != 5 then None
        else
          var companion := ReadCompanion(slots, gen);
          var look := if version == 5 then ReadLook(slots, gen) else Some(DEFAULT_APPEARANCE);
          if companion.None? || look.None? then None
          else Guarded(Assemble(config.value, pet.value, boots, reason, companion.value, look.value))
      case Some(BootPartV3(boots, reason)) =>
        Guarded(Assemble(config.value, pet.value, boots, reason,
                         Unlock(DEFAULT_COMPANION, pet.value.pet.xp), DEFAULT_APPEARANCE))
      case _ => None
  }

  /** What a boot finds: one whole State, a board never saved to, or something it refuses. */
  datatype Found = Whole(state: State) | Fresh | Unreadable

  function FoundLegacy(v2: Legacy, v1: Legacy): Found {
    match v2
    case WrongSize => Unreadable
    case Present(past) => FoundMigrated(MigrateV2(past))
    case Absent =>
      match v1
      case WrongSize => Unreadable
      case Present(past) => FoundMigrated(MigrateV1(past))
      case Absent => Fresh
  }

  function FoundMigrated(s: Option<State>): Found {
    if s.Some? && ValidCurrent(s.value) then Whole(s.value) else Unreadable
  }

  function Live(flash: Flash): Found {
    match flash.word
    case None => FoundLegacy(flash.v2, flash.v1)
    case Some(gen) =>
      match ReadGeneration(flash.slots, gen)
      case Some(s) => Whole(s)
      case None => Unreadable
  }

  // ---- Writing ----

  /** One write: durable, refused by the flash, or cut by power loss; the last two may leave anything. */
  datatype Fault = Works | Fails(residue: Option<Blob>) | Cuts(residue: Option<Blob>)

  /** The commit of the generation word; visible says whether the new word reached the flash. */
  datatype WordFault = WordWorks | WordFails(visible: bool) | WordCuts(visible: bool)

  datatype Script = Script(parts: seq<Fault>, word: WordFault)

  datatype Outcome = Saved | Refused | PowerLost

  datatype Part = Part(space: Space, value: Payload)

  function Parts(s: State): (parts: seq<Part>)
    ensures |parts| == 5
  {
    var a := s.appearance;
    [Part(SettingsSpace, ConfigPart(s.settings, s.calibration, s.battery)),
     Part(PetSpace, PetPart(s.pet, s.recent, s.mealKey)),
     Part(SystemSpace, BootPart(s.boots, s.resetReason, 5)),
     Part(CompanionSpace, CompanionPart(s.companion)),
     Part(LookSpace, Look12(a.version, a.theme, a.scene, a.speech, a.compact, a.inverted,
                            a.dimMinutes, a.saverMinutes, a.offMinutes))]
  }

  function Sealed(gen: nat, value: Payload): Blob {
    Blob(1, gen, true, value)
  }

  function Leave(slots: map<Slot, Blob>, slot: Slot, residue: Option<Blob>): map<Slot, Blob> {
    match residue
    case None => slots
    case Some(b) => slots[slot := b]
  }

  function WritePart(slots: map<Slot, Blob>, gen: nat, part: Part, fault: Fault): map<Slot, Blob> {
    var slot := Slot(part.space, gen % 2);
    match fault
    case Works => slots[slot := Sealed(gen, part.value)]
    case Fails(residue) => Leave(slots, slot, residue)
    case Cuts(residue) => Leave(slots, slot, residue)
  }

  function WriteParts(slots: map<Slot, Blob>, gen: nat, parts: seq<Part>, faults: seq<Fault>): (map<Slot, Blob>,
      Outcome)
    requires |parts| == |faults|
    decreases |parts|
  {
    if parts == [] then (slots, Saved)
    else
      var next := WritePart(slots, gen, parts[0], faults[0]);
      match faults[0]
      case Works => WriteParts(next, gen, parts[1..], faults[1..])
      case Fails(_) => (next, Refused)
      case Cuts(_) => (next, PowerLost)
  }

  /** The device: its flash, and the generation the running firmware holds in RAM. */
  datatype Device = Device(flash: Flash, ram: Option<nat>) {
    predicate On() {
      ram.Some?
    }

    /** The RAM generation is the published one. */
    predicate Synced() {
      On() && ram.value < GENERATION_LIMIT && match flash.word
        case None => ram.value == 0
        case Some(gen) => ram.value == gen
    }
  }

  function Persist(d: Device, s: State, script: Script): (Device, Outcome)
    requires d.On() && |script.parts| == 5
  {
    var next := d.ram.value + 1;
    if !ValidCurrent(s) || next >= GENERATION_LIMIT then (d, Refused)
    else
      var (slots, written) := WriteParts(d.flash.slots, next, Parts(s), script.parts);
      var torn := d.flash.(slots := slots);
      match written
      case Refused => (d.(flash := torn), Refused)
      case PowerLost => (Device(torn, None), PowerLost)
      case Saved =>
        match script.word
        case WordWorks => (Device(torn.(word := Some(next)), Some(next)), Saved)
        case WordFails(visible) => (d.(flash := if visible then torn.(word := Some(next)) else torn), Refused)
        case WordCuts(visible) => (Device(if visible then torn.(word := Some(next)) else torn, None), PowerLost)
  }

  /** The new generation word reached the flash. */
  ghost predicate Published(d: Device, s: State, script: Script)
    requires d.On() && |script.parts| == 5
  {
    && ValidCurrent(s) && d.ram.value + 1 < GENERATION_LIMIT
    && (forall i | 0 <= i < 5 :: script.parts[i] == Works)
    && (script.word == WordWorks || script.word == WordFails(true) || script.word == WordCuts(true))
  }

  /** The edits a boot makes to what it found, before saving it again. */
  function Booted(found: Found, reason: nat, key: seq<Byte>): State
    requires !found.Unreadable?
  {
    match found
    case Whole(s) => s.(pet := s.pet.(decayMs := 0), boots := (s.boots + 1) % GENERATION_LIMIT, resetReason := reason)
    case Fresh => DEFAULT_STATE.(mealKey := key, boots := 1, resetReason := reason)
  }

  function Load(flash: Flash, reason: nat, key: seq<Byte>, script: Script): (Device, Outcome)
    requires |script.parts| == 5
  {
    var d := Device(flash, Some(flash.word.GetOr(0)));
    if Live(flash).Unreadable? then (d, Refused)
    else Persist(d, Booted(Live(flash), reason, key), script)
  }

  // ---- A finished write reads back, an unfinished one touches only the other slot ----

  lemma {:induction false} OtherParityUntouched(slots: map<Slot, Blob>, gen: nat, parts: seq<Part>, faults: seq<Fault>,
      slot: Slot)
    requires |parts| == |faults| && slot.parity != gen % 2
    ensures var after := WriteParts(slots, gen, parts, faults).0;
            (slot in after <==> slot in slots) && (slot in slots ==> after[slot] == slots[slot])
    decreases |parts|
  {
    if parts != [] && faults[0] == Works {
      OtherParityUntouched(WritePart(slots, gen, parts[0], faults[0]), gen, parts[1..], faults[1..], slot);
    }
  }

  lemma OtherGenerationReads(before: map<Slot, Blob>, after: map<Slot, Blob>, gen: nat)
    requires forall space :: var slot := Slot(space, gen % 2);
               (slot in after <==> slot in before) && (slot in before ==> after[slot] == before[slot])
    ensures ReadGeneration(after, gen) == ReadGeneration(before, gen)
  {
    assert forall space :: ReadPart(after, space, gen) == ReadPart(before, space, gen);
  }

  lemma {:induction false} WrittenWhenAllWork(slots: map<Slot, Blob>, gen: nat, parts: seq<Part>, faults: seq<Fault>)
    requires |parts| == |faults|
    ensures WriteParts(slots, gen, parts, faults).1 == Saved <==> forall i | 0 <= i < |faults| :: faults[i] == Works
    decreases |parts|
  {
    if parts != [] {
      WrittenWhenAllWork(WritePart(slots, gen, parts[0], faults[0]), gen, parts[1..], faults[1..]);
      assert forall i | 0 < i < |faults| :: faults[i] == faults[1..][i - 1];
    }
  }

  /** Reading a generation right after writing all its parts gives the saved State back. */
  lemma SavedReadsBack(slots: map<Slot, Blob>, gen: nat, s: State, faults: seq<Fault>)
    requires ValidCurrent(s) && |faults| == 5 && forall i | 0 <= i < 5 :: faults[i] == Works
    ensures ReadGeneration(WriteParts(slots, gen, Parts(s), faults).0, gen) == Some(s)
  {
    var p := Parts(s);
    var a := slots[Slot(p[0].space, gen % 2) := Sealed(gen, p[0].value)];
    var b := a[Slot(p[1].space, gen % 2) := Sealed(gen, p[1].value)];
    var c := b[Slot(p[2].space, gen % 2) := Sealed(gen, p[2].value)];
    var d := c[Slot(p[3].space, gen % 2) := Sealed(gen, p[3].value)];
    var e := d[Slot(p[4].space, gen % 2) := Sealed(gen, p[4].value)];
    WriteNext(slots, gen, p, faults);
    WriteNext(a, gen, p[1..], faults[1..]);
    WriteNext(b, gen, p[1..][1..], faults[1..][1..]);
    WriteNext(c, gen, p[1..][1..][1..], faults[1..][1..][1..]);
    WriteNext(d, gen, p[1..][1..][1..][1..], faults[1..][1..][1..][1..]);
    assert WriteParts(slots, gen, p, faults).0 == e;
    assert ReadPart(e, LookSpace, gen) == Some(p[4].value);
    assert ReadPart(e, CompanionSpace, gen) == Some(p[3].value);
    assert ReadPart(e, SystemSpace, gen) == Some(p[2].value);
    assert ReadPart(e, PetSpace, gen) == Some(p[1].value);
    assert ReadPart(e, SettingsSpace, gen) == Some(p[0].value);
  }

  lemma WriteNext(slots: map<Slot, Blob>, gen: nat, parts: seq<Part>, faults: seq<Fault>)
    requires |parts| == |faults| && parts != [] && faults[0] == Works
    ensures WriteParts(slots, gen, parts, faults)
         == WriteParts(slots[Slot(parts[0].space, gen % 2) := Sealed(gen, parts[0].value)], gen, parts[1..],
             faults[1..])
  {
  }

  // ---- One save is atomic ----

  /** The slots about to be written are not the ones a boot would read. */
  predicate SparesLive(d: Device)
    requires d.On()
  {
    d.flash.word.Some? ==> (d.ram.value + 1) % 2 != d.flash.word.value % 2
  }

  lemma LiveGenerationSpared(slots: map<Slot, Blob>, next: nat, parts: seq<Part>, faults: seq<Fault>, gen: nat)
    requires |parts| == |faults| && next % 2 != gen % 2
    ensures ReadGeneration(WriteParts(slots, next, parts, faults).0, gen) == ReadGeneration(slots, gen)
  {
    var after := WriteParts(slots, next, parts, faults).0;
    forall space ensures var slot := Slot(space, gen % 2);
        (slot in after <==> slot in slots) && (slot in slots ==> after[slot] == slots[slot]) {
      OtherParityUntouched(slots, next, parts, faults, Slot(space, gen % 2));
    }
    OtherGenerationReads(slots, after, gen);
  }

  lemma PublishedIsFound(d: Device, s: State, script: Script)
    requires d.On() && |script.parts| == 5 && Published(d, s, script)
    ensures Live(Persist(d, s, script).0.flash) == Whole(s)
    ensures Persist(d, s, script).1 == Saved ==> Persist(d, s, script).0.Synced()
  {
    WrittenWhenAllWork(d.flash.slots, d.ram.value + 1, Parts(s), script.parts);
    SavedReadsBack(d.flash.slots, d.ram.value + 1, s, script.parts);
  }

  lemma UnpublishedIsKept(d: Device, s: State, script: Script)
    requires d.On() && SparesLive(d) && |script.parts| == 5 && !Published(d, s, script)
    ensures Live(Persist(d, s, script).0.flash) == Live(d.flash) && Persist(d, s, script).1 != Saved
  {
    hide ReadGeneration, WriteParts, Parts, ValidCurrent;
    var next := d.ram.value + 1;
    WrittenWhenAllWork(d.flash.slots, next, Parts(s), script.parts);
    if d.flash.word.Some? {
      LiveGenerationSpared(d.flash.slots, next, Parts(s), script.parts, d.flash.word.value);
    }
    assert Persist(d, s, script).0.flash.word == d.flash.word;
  }

  /** Whatever fails or is cut, a boot afterwards finds the old contents or exactly the new State. */
  lemma PersistAtomic(d: Device, s: State, script: Script)
    requires d.On() && SparesLive(d) && |script.parts| == 5
    ensures Live(Persist(d, s, script).0.flash) == if Published(d, s, script) then Whole(s) else Live(d.flash)
    ensures Persist(d, s, script).1 == Saved ==> Published(d, s, script) && Persist(d, s, script).0.Synced()
  {
    if Published(d, s, script) {
      PublishedIsFound(d, s, script);
    } else {
      UnpublishedIsKept(d, s, script);
    }
  }

  /** A save succeeds exactly if the state is valid, a generation is left, and every write works; it is published. */
  lemma SavedExactly(d: Device, s: State, script: Script)
    requires d.On() && |script.parts| == 5
    ensures Persist(d, s, script).1 == Saved <==>
              ValidCurrent(s) && d.ram.value + 1 < GENERATION_LIMIT
              && (forall i | 0 <= i < 5 :: script.parts[i] == Works) && script.word == WordWorks
    ensures Persist(d, s, script).1 == Saved ==>
              var next := Persist(d, s, script).0;
              Live(next.flash) == Whole(s) && next.ram == next.flash.word == Some(d.ram.value + 1)
  {
    hide ReadGeneration, WriteParts, Parts, ValidCurrent;
    WrittenWhenAllWork(d.flash.slots, d.ram.value + 1, Parts(s), script.parts);
    if Published(d, s, script) {
      PublishedIsFound(d, s, script);
    }
  }

  /** t is s after a boot: one more start, its reason, and the decay clock at 0; everything else is as it was. */
  predicate Restarted(s: State, t: State, reason: nat) {
    && t.settings == s.settings && t.calibration == s.calibration && t.recent == s.recent && t.mealKey == s.mealKey
    && t.battery == s.battery && t.companion == s.companion && t.appearance == s.appearance && t.version == s.version
    && t.pet.xp == s.pet.xp && t.pet.meals == s.pet.meals && t.pet.unique == s.pet.unique
    && t.pet.categoryMask == s.pet.categoryMask && t.pet.lifetimeMeals == s.pet.lifetimeMeals
    && t.pet.fullness == s.pet.fullness && t.pet.mood == s.pet.mood && t.pet.decayMs == 0
    && t.resetReason == reason && t.boots == if s.boots == GENERATION_LIMIT - 1 then 0 else s.boots + 1
  }

  /** t is the state of a new board. */
  predicate Started(t: State, reason: nat, key: seq<Byte>) {
    && t.settings == DEFAULT_SETTINGS && t.pet == DEFAULT_PET && t.calibration == DEFAULT_CALIBRATION
    && t.companion == DEFAULT_COMPANION && t.appearance == DEFAULT_APPEARANCE && t.battery == DEFAULT_STATE.battery
    && t.recent == Repeat(MealStamp(0, 0), STAMP_COUNT) && t.version == 5
    && t.mealKey == key && t.boots == 1 && t.resetReason == reason
  }

  predicate WordSized(found: Found) {
    found.Whole? ==> found.state.boots < GENERATION_LIMIT
  }

  /** What a boot leaves in the flash, by what it found there. */
  predicate BootLeaves(before: Flash, after: Flash, outcome: Outcome, reason: nat, key: seq<Byte>) {
    match Live(before)
    case Unreadable => outcome == Refused && after == before
    case Whole(s) => outcome == Saved ==> Live(after).Whole? && Restarted(s, Live(after).state, reason)
    case Fresh => outcome == Saved ==> Live(after).Whole? && Started(Live(after).state, reason, key)
  }

  /** What was found keeps the guard's promise. */
  lemma FoundValid(flash: Flash)
    ensures Live(flash).Whole? ==> ValidCurrent(Live(flash).state)
  {
    hide ReadPart, ReadCompanion, ReadLook, MigrateV1, MigrateV2, ValidCurrent;
  }

  lemma RestartValid(found: Found, reason: nat, key: seq<Byte>)
    requires found.Whole? ==> ValidCurrent(found.state)
    requires found.Fresh? ==> exists i | 0 <= i < |key| :: key[i] != 0
    ensures !found.Unreadable? ==> ValidCurrent(Booted(found, reason, key))
  {
    if found.Fresh? {
      DefaultsValid(key);
      assert ValidCurrent(DEFAULT_STATE.(mealKey := key));
    }
  }

  lemma DefaultsValid(key: seq<Byte>)
    requires exists i | 0 <= i < |key| :: key[i] != 0
    ensures ValidCurrent(DEFAULT_STATE.(mealKey := key))
  {
  }

  /**
   * A boot keeps the whole state it found, up to the count of starts, their reason and the decay clock; and it succeeds
   * whenever there is something to start from, a generation is left, and every write works.
   */
  lemma BootKeeps(flash: Flash, reason: nat, key: seq<Byte>, script: Script)
    requires |script.parts| == 5 && WordSized(Live(flash))
    ensures BootLeaves(flash, Load(flash, reason, key, script).0.flash, Load(flash, reason, key, script).1, reason, key)
    ensures !Live(flash).Unreadable? && flash.word.GetOr(0) + 1 < GENERATION_LIMIT
            && (Live(flash).Fresh? ==> exists i | 0 <= i < |key| :: key[i] != 0)
            && (forall i | 0 <= i < 5 :: script.parts[i] == Works) && script.word == WordWorks ==>
              Load(flash, reason, key, script).1 == Saved
  {
    hide ReadGeneration, WriteParts, Parts, ValidCurrent, Live, Persist;
    FoundValid(flash);
    if !Live(flash).Unreadable? {
      SavedExactly(Device(flash, Some(flash.word.GetOr(0))), Booted(Live(flash), reason, key), script);
      if Live(flash).Fresh? ==> exists i | 0 <= i < |key| :: key[i] != 0 {
        RestartValid(Live(flash), reason, key);
      }
    }
  }

  /** A device whose RAM generation is the published one never writes over what a boot would read. */
  lemma SyncedSparesLive(d: Device)
    requires d.Synced()
    ensures SparesLive(d)
  {
  }

  // ---- Every run ----

  datatype Event =
    | Save(state: State, saveScript: Script)
    | Boot(reason: nat, key: seq<Byte>, bootScript: Script)
    | Unplug

  ghost predicate WellFormed(e: Event) {
    match e
    case Save(_, script) => |script.parts| == 5
    case Boot(_, _, script) => |script.parts| == 5
    case Unplug => true
  }

  /** A refused load stops the firmware; a device that is off ignores saves until it boots. */
  ghost function Step(d: Device, e: Event): Device
    requires WellFormed(e)
  {
    match e
    case Save(s, script) => if d.On() then Persist(d, s, script).0 else d
    case Boot(reason, key, script) =>
      var (next, outcome) := Load(d.flash, reason, key, script);
      if outcome == Refused then next.(ram := None) else next
    case Unplug => d.(ram := None)
  }

  ghost function Run(d: Device, events: seq<Event>): Device
    requires forall i | 0 <= i < |events| :: WellFormed(events[i])
    decreases |events|
  {
    if events == [] then d else Run(Step(d, events[0]), events[1..])
  }

  /** No save is tried while the RAM generation lags behind a word that a failed commit published. */
  ghost predicate Disciplined(d: Device, events: seq<Event>)
    requires forall i | 0 <= i < |events| :: WellFormed(events[i])
    decreases |events|
  {
    events == []
    || ((events[0].Save? && d.On() ==> d.Synced()) && Disciplined(Step(d, events[0]), events[1..]))
  }

  /**
   * Seen from outside: after a save whose final commit failed with its word visible, the device is restarted or
   * switched off before the next save. lagging: such a save was the last event that mattered.
   */
  ghost predicate Restarts(events: seq<Event>, lagging: bool) {
    events == []
    || match events[0]
       case Save(_, script) => !lagging && Restarts(events[1..], script.word == WordFails(true))
       case _ => Restarts(events[1..], false)
  }

  lemma StepSynced(d: Device, e: Event)
    requires WellFormed(e) && (d.On() && e.Save? ==> d.Synced()) && Step(d, e).On()
    ensures (e.Save? && e.saveScript.word == WordFails(true)) || Step(d, e).Synced()
  {
    hide WriteParts, ReadGeneration, ValidCurrent, Booted, Parts;
  }

  /** So every such run is disciplined, from a device that is off, or on and in step with its flash. */
  lemma {:induction false} RestartsDisciplined(d: Device, events: seq<Event>, lagging: bool)
    requires forall i | 0 <= i < |events| :: WellFormed(events[i])
    requires Restarts(events, lagging) && (d.On() && !lagging ==> d.Synced())
    ensures Disciplined(d, events)
    decreases |events|
  {
    hide WellFormed, Step;
    if events != [] {
      var e, next := events[0], Step(d, events[0]);
      assert forall i | 0 <= i < |events[1..]| :: events[1..][i] == events[i + 1];
      if next.On() && (d.On() && e.Save? ==> d.Synced()) {
        StepSynced(d, e);
      }
      RestartsDisciplined(next, events[1..], e.Save? && e.saveScript.word == WordFails(true));
    }
  }

  /** The reference: a single cell that either keeps its contents or takes the whole new State. */
  ghost function Cell(cell: Found, d: Device, e: Event): Found
    requires WellFormed(e)
  {
    match e
    case Save(s, script) => if d.On() && Published(d, s, script) then Whole(s) else cell
    case Boot(reason, key, script) =>
      if cell.Unreadable? then cell
      else if Published(Device(d.flash, Some(d.flash.word.GetOr(0))), Booted(cell, reason, key), script)
      then Whole(Booted(cell, reason, key)) else cell
    case Unplug => cell
  }

  ghost function RunCell(cell: Found, d: Device, events: seq<Event>): Found
    requires forall i | 0 <= i < |events| :: WellFormed(events[i])
    decreases |events|
  {
    if events == [] then cell else RunCell(Cell(cell, d, events[0]), Step(d, events[0]), events[1..])
  }

  ghost predicate WordFits(flash: Flash) {
    flash.word.Some? ==> flash.word.value < GENERATION_LIMIT
  }

  lemma SaveAtomic(d: Device, s: State, script: Script)
    requires d.Synced() && |script.parts| == 5
    ensures Live(Persist(d, s, script).0.flash) == if Published(d, s, script) then Whole(s) else Live(d.flash)
    ensures WordFits(d.flash) ==> WordFits(Persist(d, s, script).0.flash)
  {
    SyncedSparesLive(d);
    PersistAtomic(d, s, script);
  }

  lemma StepAtomic(d: Device, e: Event)
    requires WellFormed(e) && WordFits(d.flash) && (e.Save? && d.On() ==> d.Synced())
    ensures Live(Step(d, e).flash) == Cell(Live(d.flash), d, e) && WordFits(Step(d, e).flash)
  {
    match e
    case Save(s, script) =>
      if d.On() {
        SaveAtomic(d, s, script);
      }
    case Boot(reason, key, script) =>
      BootAtomic(d.flash, reason, key, script);
    case Unplug =>
  }

  lemma BootAtomic(flash: Flash, reason: nat, key: seq<Byte>, script: Script)
    requires WordFits(flash) && |script.parts| == 5
    ensures Live(Load(flash, reason, key, script).0.flash)
         == Cell(Live(flash), Device(flash, None), Boot(reason, key, script))
    ensures WordFits(Load(flash, reason, key, script).0.flash)
  {
    var found := Live(flash);
    if !found.Unreadable? {
      SaveAtomic(Device(flash, Some(flash.word.GetOr(0))), Booted(found, reason, key), script);
    }
  }

  /**
   * Over every run of saves, failures, power cuts, boots and migrations, starting from any flash
   * contents, what a boot would find is what the single atomic cell holds.
   */
  lemma {:induction false} RunAtomic(d: Device, events: seq<Event>)
    requires forall i | 0 <= i < |events| :: WellFormed(events[i])
    requires WordFits(d.flash) && Disciplined(d, events)
    ensures Live(Run(d, events).flash) == RunCell(Live(d.flash), d, events)
    decreases |events|
  {
    if events != [] {
      StepAtomic(d, events[0]);
      RunAtomic(Step(d, events[0]), events[1..]);
    }
  }

  /** Every State that some save or boot of the run set out to store. */
  ghost function Offered(cell: Found, d: Device, events: seq<Event>): set<State>
    requires forall i | 0 <= i < |events| :: WellFormed(events[i])
    decreases |events|
  {
    if events == [] then {}
    else
      (match events[0]
       case Save(s, _) => {s}
       case Boot(reason, key, _) => if cell.Unreadable? then {} else {Booted(cell, reason, key)}
       case Unplug => {})
      + Offered(Cell(cell, d, events[0]), Step(d, events[0]), events[1..])
  }

  /** So no boot ever finds a mixture: only the first contents or one State offered whole. */
  lemma {:induction false} NeverMixed(cell: Found, d: Device, events: seq<Event>)
    requires forall i | 0 <= i < |events| :: WellFormed(events[i])
    ensures var r := RunCell(cell, d, events);
            r == cell || (r.Whole? && r.state in Offered(cell, d, events))
    decreases |events|
  {
    if events != [] {
      NeverMixed(Cell(cell, d, events[0]), Step(d, events[0]), events[1..]);
    }
  }

  // ---- Exactly when a save is safe ----

  ghost predicate CutSafe(d: Device, s: State, script: Script)
    requires d.On() && |script.parts| == 5
  {
    var found := Live(Persist(d, s, script).0.flash);
    found == Live(d.flash) || found == Whole(s)
  }

  const CUT_AT_SECOND_PART := Script([Works, Cuts(None), Works, Works, Works], WordWorks)

  lemma CutAfterSettings(d: Device, s: State)
    requires d.On() && d.ram.value + 1 < GENERATION_LIMIT && ValidCurrent(s)
    ensures Persist(d, s, CUT_AT_SECOND_PART)
         == (Device(d.flash.(slots := d.flash.slots[Slot(SettingsSpace, (d.ram.value + 1) % 2)
                                                    := Sealed(d.ram.value + 1, Parts(s)[0].value)]), None), PowerLost)
  {
    var next := d.ram.value + 1;
    var a := d.flash.slots[Slot(SettingsSpace, next % 2) := Sealed(next, Parts(s)[0].value)];
    WriteNext(d.flash.slots, next, Parts(s), CUT_AT_SECOND_PART.parts);
    assert CUT_AT_SECOND_PART.parts[1..][0] == Cuts(None);
    assert WriteParts(a, next, Parts(s)[1..], CUT_AT_SECOND_PART.parts[1..]) == (a, PowerLost);
  }

  /** A State that differs from s in its settings and in its pet. */
  function Altered(s: State): State {
    s.(settings := s.settings.(brightness := if s.settings.brightness == 50 then 51 else 50),
       pet := s.pet.(fullness := if s.pet.fullness == 0 then 1 else 0))
  }

  lemma ConfigMissing(slots: map<Slot, Blob>, gen: nat)
    requires ReadPart(slots, SettingsSpace, gen) == None
    ensures ReadGeneration(slots, gen) == None
  {
  }

  /** Replacing only the settings part of a readable generation. */
  lemma ConfigReplaced(slots: map<Slot, Blob>, torn: map<Slot, Blob>, gen: nat, past: State, settings: Settings)
    requires ReadGeneration(slots, gen) == Some(past)
    requires forall space | space != SettingsSpace :: ReadPart(torn, space, gen) == ReadPart(slots, space, gen)
    requires ReadPart(torn, SettingsSpace, gen) == Some(ConfigPart(settings, past.calibration, past.battery))
    requires ValidCurrent(past.(settings := settings))
    ensures ReadGeneration(torn, gen) == Some(past.(settings := settings))
  {
    assert ReadPart(torn, PetSpace, gen) == ReadPart(slots, PetSpace, gen);
    assert ReadPart(torn, SystemSpace, gen) == ReadPart(slots, SystemSpace, gen);
    assert ReadPart(torn, CompanionSpace, gen) == ReadPart(slots, CompanionSpace, gen);
    assert ReadPart(torn, LookSpace, gen) == ReadPart(slots, LookSpace, gen);
  }

  lemma AlteredValid(s: State)
    requires ValidCurrent(s)
    ensures ValidCurrent(Altered(s)) && ValidCurrent(s.(settings := Altered(s).settings))
  {
  }

  lemma LiveIsValid(slots: map<Slot, Blob>, gen: nat)
    ensures ReadGeneration(slots, gen).Some? ==> ValidCurrent(ReadGeneration(slots, gen).value)
  {
  }

  /** Writing into the live slots and losing power after one part: half new, half old, or unreadable. */
  lemma LiveSlotsTear(d: Device, past: State)
    requires d.On() && d.ram.value + 1 < GENERATION_LIMIT && !SparesLive(d)
    requires Live(d.flash) == Whole(past)
    ensures ValidCurrent(Altered(past)) && !CutSafe(d, Altered(past), CUT_AT_SECOND_PART)
    ensures Live(Persist(d, Altered(past), CUT_AT_SECOND_PART).0.flash)
         == if d.ram.value + 1 == d.flash.word.value then Whole(past.(settings := Altered(past).settings))
            else Unreadable
  {
    var s, next, gen := Altered(past), d.ram.value + 1, d.flash.word.value;
    LiveIsValid(d.flash.slots, gen);
    AlteredValid(past);
    CutAfterSettings(d, s);
    var torn := d.flash.slots[Slot(SettingsSpace, next % 2) := Sealed(next, Parts(s)[0].value)];
    forall space | space != SettingsSpace ensures ReadPart(torn, space, gen) == ReadPart(d.flash.slots, space, gen) {
    }
    if next == gen {
      ConfigReplaced(d.flash.slots, torn, gen, past, s.settings);
    } else {
      ConfigMissing(torn, gen);
    }
  }

  /**
   * A save is safe against every cut and failure, for every State it may be given, exactly when
   * the slots it writes are not the live ones (or the generations are used up and it writes nothing).
   */
  lemma CutSafeExactly(d: Device)
    requires d.On() && Live(d.flash).Whole?
    ensures (forall s: State, script: Script | |script.parts| == 5 :: CutSafe(d, s, script))
       <==> SparesLive(d) || d.ram.value + 1 >= GENERATION_LIMIT
  {
    if SparesLive(d) || d.ram.value + 1 >= GENERATION_LIMIT {
      forall s: State, script: Script | |script.parts| == 5 ensures CutSafe(d, s, script) {
        if d.ram.value + 1 < GENERATION_LIMIT {
          PersistAtomic(d, s, script);
        }
      }
    } else {
      LiveSlotsTear(d, Live(d.flash).state);
      assert |CUT_AT_SECOND_PART.parts| == 5;
    }
  }

  /**
   * How the firmware gets there: the final commit reports failure although the word is visible.
   * The RAM generation now lags, and the next save writes straight into the live slots.
   */
  lemma FailedCommitLags(d: Device, s: State)
    requires d.Synced() && ValidCurrent(s) && d.ram.value + 2 < GENERATION_LIMIT
    ensures var lagging := Persist(d, s, Script([Works, Works, Works, Works, Works], WordFails(true)));
            && lagging.1 == Refused && Live(lagging.0.flash) == Whole(s)
            && lagging.0.On() && !SparesLive(lagging.0)
            && Live(Persist(lagging.0, Altered(s), CUT_AT_SECOND_PART).0.flash)
               == Whole(s.(settings := Altered(s).settings))
  {
    hide ReadGeneration, WriteParts, Parts, ValidCurrent;
    var script := Script([Works, Works, Works, Works, Works], WordFails(true));
    SyncedSparesLive(d);
    PersistAtomic(d, s, script);
    WrittenWhenAllWork(d.flash.slots, d.ram.value + 1, Parts(s), script.parts);
    var lagging := Persist(d, s, script).0;
    LiveSlotsTear(lagging, s);
  }

  // ---- The code ----

  class Store {
    var slots: map<Slot, Blob>
    var word: Option<nat>
    var v2: Legacy
    var v1: Legacy
    /** The file-static generation; it survives nothing. */
    var generation: nat
    var powered: bool

    constructor (flash: Flash)
      ensures View() == Device(flash, None)
    {
      slots, word, v2, v1 := flash.slots, flash.word, flash.v2, flash.v1;
      generation, powered := 0, false;
    }

    ghost function View(): Device
      reads this
    {
      Device(Flash(slots, word, v2, v1), if powered then Some(generation) else None)
    }

    method StorePart(gen: nat, part: Part, fault: Fault) returns (outcome: Outcome)
      modifies this`slots
      ensures slots == WritePart(old(slots), gen, part, fault)
      ensures outcome == match fault case Works => Saved case Fails(_) => Refused case Cuts(_) => PowerLost
    {
      var slot := Slot(part.space, gen % 2);
      match fault
      case Works =>
        slots := slots[slot := Blob(1, gen, true, part.value)];
        outcome := Saved;
      case Fails(residue) =>
        slots := Leave(slots, slot, residue);
        outcome := Refused;
      case Cuts(residue) =>
        slots := Leave(slots, slot, residue);
        outcome := PowerLost;
    }

    method StoreParts(gen: nat, parts: seq<Part>, faults: seq<Fault>) returns (outcome: Outcome)
      requires |parts| == |faults|
      modifies this`slots
      ensures (slots, outcome) == WriteParts(old(slots), gen, parts, faults)
    {
      var k := 0;
      while k < |parts|
        invariant 0 <= k <= |parts|
        invariant WriteParts(slots, gen, parts[k..], faults[k..]) == WriteParts(old(slots), gen, parts, faults)
      {
        assert parts[k..][1..] == parts[k + 1..] && faults[k..][1..] == faults[k + 1..];
        outcome := StorePart(gen, parts[k], faults[k]);
        if outcome != Saved {
          return;
        }
        k := k + 1;
      }
      return Saved;
    }

    method PersistState(s: State, script: Script) returns (outcome: Outcome)
      requires powered && |script.parts| == 5
      modifies this
      ensures (View(), outcome) == Persist(old(View()), s, script)
    {
      var next := generation + 1;
      if !ValidCurrent(s) || next >= GENERATION_LIMIT {
        return Refused;
      }
      outcome := StoreParts(next, Parts(s), script.parts);
      if outcome == PowerLost {
        powered := false;
      }
      if outcome != Saved {
        return;
      }
      match script.word
      case WordWorks =>
        word, generation := Some(next), next;
      case WordFails(visible) =>
        word := if visible then Some(next) else word;
        outcome := Refused;
      case WordCuts(visible) =>
        word := if visible then Some(next) else word;
        powered, outcome := false, PowerLost;
    }

    method LoadState(reason: nat, key: seq<Byte>, script: Script) returns (outcome: Outcome)
      requires |script.parts| == 5
      modifies this
      ensures (View(), outcome) == Load(old(View()).flash, reason, key, script)
      ensures WordSized(Live(old(View()).flash)) ==>
                BootLeaves(old(View()).flash, View().flash, outcome, reason, key)
    {
      if WordSized(Live(View().flash)) {
        BootKeeps(View().flash, reason, key, script);
      }
      generation, powered := word.GetOr(0), true;
      var found := Live(Flash(slots, word, v2, v1));
      if found == Unreadable {
        return Refused;
      }
      outcome := PersistState(Booted(found, reason, key), script);
    }
  }
}
