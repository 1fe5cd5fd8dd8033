/** What a valid log record is: the checks of the recovery scan and of the exporter, on the tree of a line. */
module LogCheck {
  import opened Core
  import opened JsonText
  import opened JsonParser
  import opened JsonReader
  import opened JsonFields
  import Calendar

  const FIELD_BUFFER: nat := 160
  const TIME_MAX: int := 9007199254740991
  const SEEN_MAX: int := 0xffff_ffff
  const UTC_BUFFER: nat := 24
  const ID_BUFFER: nat := 65
  const HARDWARE: string := "E32R40T"

  const CATEGORIES: seq<string> := [
    "FLOCK", "AXON", "GLASSES", "SKIMMER", "RAVEN", "AIRTAG", "TILE", "SAMSUNG_TAG", "GOOGLE_TAG", "DRONE", "ALPR",
    "CAMERA", "RING", "IBEACON", "FLIPPER", "PWNAGOTCHI", "PINEAPPLE", "DEAUTH", "EVIL_TWIN"]

  function GradeName(score: int): string {
    if score >= 80 then "high" else if score >= 50 then "medium" else if score >= 20 then "low" else "informational"
  }

  // ---- Members of the record ----

  function MemberOf(n: Node, key: Key): Option<Node> {
    if n.Tree? && n.obj then FindIn(n.elems, Name(key)) else None
  }

  function StringOf(n: Option<Node>, capacity: nat): Option<string> {
    if n.Some? && n.value.Leaf? && n.value.kind == String then Readable(n.value.text, capacity) else None
  }

  function Str(n: Node, key: Key): Option<string> {
    StringOf(MemberOf(n, key), FIELD_BUFFER)
  }

  function NumberOfNode(n: Option<Node>): Option<int> {
    if n.Some? && n.value.Leaf? && n.value.kind == Number then IntegerOf(n.value.text) else None
  }

  function Int(n: Node, key: Key): Option<int> {
    NumberOfNode(MemberOf(n, key))
  }

  predicate Within(n: Node, key: Key, low: int, high: int) {
    Int(n, key).Some? && low <= Int(n, key).value <= high
  }

  // ---- The checks, in their order ----

  const TEXT_KEYS: seq<Key> := [EventId, FirmwareVersion, Hardware, Identifier, Label, Reason, SessionId, SignaturePack]

  predicate TextsPresent(n: Node) {
    forall k | k in TEXT_KEYS :: Str(n, k).Some? && Str(n, k).value != ""
  }

  predicate LowerHex(c: char) {
    '0' <= c <= '9' || 'a' <= c <= 'f'
  }

  predicate Base32(c: char) {
    'A' <= c <= 'Z' || '2' <= c <= '7'
  }

  predicate SessionShape(s: string) {
    |s| == 32 && forall i | 0 <= i < |s| :: LowerHex(s[i])
  }

  predicate TokenShape(s: string) {
    |s| == 20 && forall i | 0 <= i < |s| :: Base32(s[i])
  }

  predicate Identified(n: Node) {
    && Str(n, Hardware) == Some(HARDWARE)
    && Str(n, SessionId).Some? && SessionShape(Str(n, SessionId).value)
    && Str(n, Identifier).Some? && TokenShape(Str(n, Identifier).value)
    && Str(n, Category).Some? && Str(n, Category).value in CATEGORIES
  }

  predicate Counted(n: Node) {
    && Within(n, SchemaVersion, 1, 1) && Within(n, Score, 1, 100) && Within(n, SeenCount, 1, SEEN_MAX)
        && Within(n, Channel, 0, 14)
    && Within(n, FirstSeenMs, 0, TIME_MAX) && Within(n, UptimeMs, 0, TIME_MAX)
    && Int(n, FirstSeenMs).value <= Int(n, UptimeMs).value
    && Str(n, Confidence) == Some(GradeName(Int(n, Score).value))
  }

  predicate Measured(n: Node) {
    && Within(n, RssiMin, -127, 20) && Within(n, RssiMax, -127, 20) && Within(n, RssiAvg, -127, 20)
    && Int(n, RssiMin).value <= Int(n, RssiAvg).value <= Int(n, RssiMax).value
  }

  predicate OneOf(n: Node, key: Key, a: string, b: string) {
    Str(n, key) == Some(a) || Str(n, key) == Some(b)
  }

  const PRIVATE_NAME: string := "private"
  const RESEARCH_NAME: string := "research"
  const UPTIME_ONLY: string := "uptime_only"
  const MANUAL: string := "manual"

  predicate Chosen(n: Node) {
    && OneOf(n, Key.Radio, "wifi", "ble") && OneOf(n, Region, "US", "EU")
        && OneOf(n, PrivacyMode, PRIVATE_NAME, RESEARCH_NAME)
    && OneOf(n, AddressType, "public", "random") && OneOf(n, TimeQuality, UPTIME_ONLY, MANUAL)
  }

  predicate Timed(n: Node) {
    if Str(n, TimeQuality) == Some(UPTIME_ONLY) then MemberOf(n, ObservedAt).Some?
        && Text(MemberOf(n, ObservedAt).value) == "null"
    else
      var utc := StringOf(MemberOf(n, ObservedAt), UTC_BUFFER);
      utc.Some? && Calendar.StampShape(utc.value) && Calendar.ParseUtc(Calendar.StampDigits(utc.value)).Some?
  }

  predicate IdChar(c: char) {
    'a' <= c <= 'z' || '0' <= c <= '9' || c == '_' || c == '.'
  }

  predicate IdNode(n: Node) {
    var id := StringOf(Some(n), ID_BUFFER);
    id.Some? && id.value != "" && forall i | 0 <= i < |id.value| :: IdChar(id.value[i])
  }

  /** One to four rule ids. */
  predicate Ruled(n: Node) {
    match MemberOf(n, RuleIds)
    case None => false
    case Some(list) =>
      && list.Tree? && !list.obj && 1 <= |list.elems| <= 4
      && forall i | 0 <= i < |list.elems| :: IdNode(list.elems[i].value)
  }

  predicate Fed(n: Node) {
    MemberOf(n, MealAwarded).Some? && MemberOf(n, MealAwarded).value.Leaf?
        && MemberOf(n, MealAwarded).value.kind == Boolean
  }

  /** validate_log */
  predicate ValidRecord(n: Node) {
    && n.Tree? && n.obj && TextsPresent(n) && Identified(n) && Counted(n) && Measured(n) && Chosen(n) && Timed(n)
        && Fed(n)
    && Ruled(n)
  }

  /** valid_log_record */
  predicate ValidLine(line: string) {
    ParseText(line).Done? && ValidRecord(ParseText(line).node)
  }
}
