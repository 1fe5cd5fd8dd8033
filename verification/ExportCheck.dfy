/** The check of exported rows that comes with the project: which exports of the firmware pass it. */
module ExportCheck {
  import opened Core
  import opened JsonText
  import opened JsonParser
  import opened JsonReader
  import opened JsonWriter
  import opened JsonFields
  import opened LogCheck
  import opened LogExport
  import LogRecord
  import RecordFacts
  import RecordWriter

  // ---- validate_export, row by row ----

  const FIELDS: seq<Key> := [
    SchemaVersion, SessionId, Identifier, Category, RuleIds, FirstSeenMs, LastSeenMs, Score, RssiMin, RssiMax,
    SeenCount, Channel, Key.Radio, FirmwareVersion, SignaturePack, Region, SourcePrivacyMode, Confidence, ObservedAt,
    TimeQuality, Hardware, Latitude, Longitude, LocationSource, PrivacyMode]

  const LONGEST: int := 0x1f_ffff_ffff_ffff

  /** Exactly the fields, whatever else a name might be. */
  ghost predicate FieldsOnly(x: Node) {
    && x.Tree? && x.obj && (forall k | k in FIELDS :: MemberOf(x, k).Some?)
    && forall name | FindIn(x.elems, name).Some? :: Listed(name)
  }

  ghost predicate Listed(name: string) {
    exists k :: k in FIELDS && Name(k) == name
  }

  predicate Placeless(x: Node) {
    && Int(x, SchemaVersion) == Some(1) && Str(x, Category).Some? && Str(x, Category).value in CATEGORIES
    && MemberOf(x, Latitude) == Some(NULL) && MemberOf(x, Longitude) == Some(NULL)
    && Str(x, LocationSource) == Some("none")
  }

  predicate Anonymous(x: Node) {
    && Str(x, Identifier).Some? && TokenShape(Str(x, Identifier).value)
    && Str(x, SessionId).Some? && SessionShape(Str(x, SessionId).value)
    && Str(x, PrivacyMode) == Some("sanitized")
  }

  predicate Timeless(x: Node) {
    MemberOf(x, ObservedAt) == Some(NULL) && Str(x, TimeQuality) == Some("uptime_only")
  }

  predicate Ranged(x: Node) {
    && Within(x, Score, 1, 100) && Within(x, FirstSeenMs, 0, LONGEST)
    && Within(x, LastSeenMs, Int(x, FirstSeenMs).value, LONGEST) && Within(x, SeenCount, 1, LONGEST)
    && Within(x, RssiMin, -127, 20) && Within(x, RssiMax, Int(x, RssiMin).value, 20) && Within(x, Channel, 0, 14)
  }

  predicate Sourced(x: Node) {
    && (Str(x, Key.Radio) == Some("wifi") || Str(x, Key.Radio) == Some("ble"))
    && (Str(x, Region) == Some("US") || Str(x, Region) == Some("EU") || Str(x, Region) == Some("unknown"))
    && (Str(x, SourcePrivacyMode) == Some("private") || Str(x, SourcePrivacyMode) == Some("research"))
    && Str(x, Hardware) == Some("E32R40T")
  }

  ghost predicate Expected(x: Node) {
    && Int(x, Score).Some? && Int(x, Score).value >= 0 && Str(x, Confidence).Some?
    && RecordFacts.Graded(Str(x, Confidence).value, Int(x, Score).value)
  }

  /** Three numbers with dots, and perhaps a suffix. */
  ghost predicate Version(s: string) {
    exists a, b, c, suffix :: VersionOf(s, a, b, c, suffix)
  }

  ghost predicate VersionOf(s: string, a: string, b: string, c: string, suffix: string) {
    && s == a + "." + b + "." + c + suffix && Digits(a) && Digits(b) && Digits(c)
    && (suffix != "" ==> |suffix| > 1 && suffix[0] == '-')
    && forall i | 1 <= i < |suffix| :: IdChar(suffix[i]) && suffix[i] != '_'
  }

  /** "v", a number, and twelve hexadecimal digits. */
  ghost predicate Pack(s: string) {
    exists number, digest :: PackOf(s, number, digest)
  }

  ghost predicate PackOf(s: string, number: string, digest: string) {
    && s == "v" + number + "-" + digest && Digits(number) && |digest| == 12
    && forall i | 0 <= i < 12 :: LowerHex(digest[i])
  }

  ghost predicate Built(x: Node) {
    && Str(x, FirmwareVersion).Some? && Version(Str(x, FirmwareVersion).value)
    && Str(x, SignaturePack).Some? && Pack(Str(x, SignaturePack).value)
  }

  predicate RuleName(s: string) {
    2 <= |s| <= 64 && 'a' <= s[0] <= 'z' && forall i | 0 <= i < |s| :: IdChar(s[i])
  }

  /** One to four different rule ids. */
  predicate NamesRules(x: Node) {
    match MemberOf(x, RuleIds)
    case None => false
    case Some(list) =>
      && list.Tree? && !list.obj && 1 <= |list.elems| <= 4
      && (forall i | 0 <= i < |list.elems| :: IdOf(list, i).Some? && RuleName(IdOf(list, i).value))
      && forall i, j | 0 <= i < j < |list.elems| :: IdOf(list, i) != IdOf(list, j)
  }

  function IdOf(list: Node, i: nat): Option<string>
    requires list.Tree? && i < |list.elems|
  {
    StringOf(Some(list.elems[i].value), ID_BUFFER)
  }

  ghost predicate RowPasses(x: Node) {
    && FieldsOnly(x) && Placeless(x) && Anonymous(x) && Timeless(x) && Ranged(x) && Sourced(x) && Built(x)
    && Expected(x) && NamesRules(x)
  }

  // ---- Which exports pass ----

  /** What the row check asks for and the log check does not: no time of day, and names as the builds make them. */
  ghost predicate Presentable(n: Node) {
    Str(n, TimeQuality) == Some("uptime_only") && Built(n) && NamesRules(n)
  }

  /** The place of a key among these fields. */
  function PlaceHere(k: Key): nat {
    match k
    case SchemaVersion => 0
    case SessionId => 1
    case Identifier => 2
    case Category => 3
    case RuleIds => 4
    case FirstSeenMs => 5
    case LastSeenMs => 6
    case Score => 7
    case RssiMin => 8
    case RssiMax => 9
    case SeenCount => 10
    case Channel => 11
    case Radio => 12
    case FirmwareVersion => 13
    case SignaturePack => 14
    case Region => 15
    case SourcePrivacyMode => 16
    case Confidence => 17
    case ObservedAt => 18
    case TimeQuality => 19
    case Hardware => 20
    case Latitude => 21
    case Longitude => 22
    case LocationSource => 23
    case PrivacyMode => 24
    case _ => 25
  }

  lemma FieldPlaced(i: nat)
    requires i < |FIELDS|
    ensures PlaceHere(FIELDS[i]) == i < 25
  {
  }

  lemma FieldAt(k: Key)
    requires PlaceHere(k) < 25
    ensures PlaceHere(k) < |FIELDS| && FIELDS[PlaceHere(k)] == k
  {
    hide *;
    FieldCount();
    FieldPlaced(PlaceHere(k));
    OneHere(FIELDS[PlaceHere(k)], k);
  }

  lemma FieldCount()
    ensures |FIELDS| == 25
  {
  }

  lemma OneHere(a: Key, b: Key)
    requires PlaceHere(a) == PlaceHere(b) < 25
    ensures a == b
  {
  }

  lemma SamePlaced(k: Key)
    ensures PlaceHere(k) < 25 <==> Place(k) < EXPORT_FIELDS
  {
  }

  lemma FieldsListed(k: Key)
    ensures k in FIELDS <==> Place(k) < EXPORT_FIELDS
  {
    hide *;
    SamePlaced(k);
    if PlaceHere(k) < 25 {
      FieldAt(k);
    }
    if k in FIELDS {
      var i :| 0 <= i < |FIELDS| && FIELDS[i] == k;
      FieldPlaced(i);
    }
  }

  lemma ExportFieldsOnly(n: Node, session: string, id: string)
    ensures FieldsOnly(ObjectNode(ExportFields(n, session, id)))
  {
    hide Place, ExportFields, FindIn, Name, Members, DistinctFields, MemberOf;
    var f := ExportFields(n, session, id);
    var x := ObjectNode(f);
    ExportKeys(n, session, id);
    forall k | k in FIELDS ensures MemberOf(x, k).Some? {
      FieldsListed(k);
      PlacesApart(f[Place(k)].key, k);
      FieldMember(f, Place(k));
    }
    forall name | FindIn(x.elems, name).Some? ensures Listed(name) {
      ExportOnly(n, session, id, name);
      var k :| Place(k) < EXPORT_FIELDS && Name(k) == name;
      FieldsListed(k);
    }
  }

  lemma PlacesApart(a: Key, b: Key)
    requires Place(a) == Place(b) < EXPORT_FIELDS
    ensures a == b
  {
  }

  /** What the reader finds in the fields of an export. */
  ghost predicate Exported(x: Node, n: Node, session: string, id: string) {
    && (forall k | k in COPIED && k != SessionId :: MemberOf(x, k) == MemberOf(n, k))
    && MemberOf(x, LastSeenMs) == MemberOf(n, UptimeMs) && MemberOf(x, SourcePrivacyMode) == MemberOf(n, PrivacyMode)
    && MemberOf(x, Latitude) == MemberOf(x, Longitude) == Some(NULL)
    && Str(x, SessionId) == Some(session) && Str(x, Identifier) == Some(id)
    && Str(x, PrivacyMode) == Some("sanitized") && Str(x, LocationSource) == Some("none")
  }

  lemma ShortRead(n: Option<Node>, s: string)
    requires n == Some(StringNode(s)) && Ascii(s) && |s| < FIELD_BUFFER
    ensures StringOf(n, FIELD_BUFFER) == Some(s)
  {
    hide Quoted, Decode, IsString;
    QuotedString(s);
  }

  lemma ShapesAscii(session: string, id: string)
    requires SessionShape(session) && TokenShape(id)
    ensures Ascii(session) && Ascii(id) && Ascii("sanitized") && Ascii("none")
  {
  }

  lemma ExportedIs(n: Node, session: string, id: string)
    requires ValidRecord(n) && SessionShape(session) && TokenShape(id)
    ensures Exported(ObjectNode(ExportFields(n, session, id)), n, session, id)
  {
    hide ValidRecord, MemberOf, ExportFields, StringNode, ObjectNode, SourceValue, StringOf, SessionShape, TokenShape,
        Ascii;
    var x := ObjectNode(ExportFields(n, session, id));
    ExportCopies(n, session, id);
    CopiesAll(n, session, id);
    Shapes(session, id);
    ShapesAscii(session, id);
    ShortRead(MemberOf(x, SessionId), session);
    ShortRead(MemberOf(x, Identifier), id);
    ShortRead(MemberOf(x, PrivacyMode), "sanitized");
    ShortRead(MemberOf(x, LocationSource), "none");
  }

  lemma Shapes(session: string, id: string)
    requires SessionShape(session) && TokenShape(id)
    ensures |session| == 32 && |id| == 20
  {
  }

  lemma ExportedCopies(x: Node, n: Node, session: string, id: string, k: Key)
    requires Exported(x, n, session, id) && k in COPIED && k != SessionId
    ensures MemberOf(x, k) == MemberOf(n, k) && Str(x, k) == Str(n, k) && Int(x, k) == Int(n, k)
  {
    hide MemberOf;
  }

  /** The parts of the row check that every valid record meets. */
  lemma AlwaysRanged(x: Node, n: Node, session: string, id: string)
    requires ValidRecord(n) && Exported(x, n, session, id)
    ensures Ranged(x) && Expected(x)
  {
    hide Str, Int, MemberOf, Identified, Chosen, Timed, Fed, Ruled, TextsPresent, Exported;
    ExportedCopies(x, n, session, id, Score);
    ExportedCopies(x, n, session, id, Confidence);
    ExportedCopies(x, n, session, id, FirstSeenMs);
    ExportedCopies(x, n, session, id, SeenCount);
    ExportedCopies(x, n, session, id, RssiMin);
    ExportedCopies(x, n, session, id, RssiMax);
    ExportedCopies(x, n, session, id, Channel);
    LastIs(x, n, session, id);
    RecordFacts.GradeGraded(Int(n, Score).value);
  }

  lemma LastIs(x: Node, n: Node, session: string, id: string)
    requires Exported(x, n, session, id)
    ensures Int(x, LastSeenMs) == Int(n, UptimeMs) && Str(x, SourcePrivacyMode) == Str(n, PrivacyMode)
    ensures MemberOf(x, Latitude) == Some(NULL) && MemberOf(x, Longitude) == Some(NULL)
    ensures Str(x, SessionId) == Some(session) && Str(x, Identifier) == Some(id)
    ensures Str(x, PrivacyMode) == Some("sanitized") && Str(x, LocationSource) == Some("none")
  {
    hide MemberOf;
  }

  lemma AlwaysSourced(x: Node, n: Node, session: string, id: string)
    requires ValidRecord(n) && Exported(x, n, session, id) && SessionShape(session) && TokenShape(id)
    ensures Placeless(x) && Anonymous(x) && Sourced(x)
  {
    hide Str, Int, MemberOf, Measured, Timed, Fed, Ruled, TextsPresent, Exported, SessionShape, TokenShape;
    ExportedCopies(x, n, session, id, SchemaVersion);
    ExportedCopies(x, n, session, id, Category);
    ExportedCopies(x, n, session, id, Key.Radio);
    ExportedCopies(x, n, session, id, Region);
    ExportedCopies(x, n, session, id, Hardware);
    LastIs(x, n, session, id);
  }

  lemma TimelessIs(x: Node, n: Node, session: string, id: string)
    requires ValidRecord(n) && WellFormed(n) && Exported(x, n, session, id)
    ensures Timeless(x) <==> Str(n, TimeQuality) == Some("uptime_only")
  {
    hide Str, Int, MemberOf, Measured, Fed, Ruled, TextsPresent, Exported, Identified, Counted, Chosen, WellFormed,
        Text;
    ExportedCopies(x, n, session, id, TimeQuality);
    ExportedCopies(x, n, session, id, ObservedAt);
    if Str(n, TimeQuality) == Some(UPTIME_ONLY) {
      MemberWellFormed(n, ObservedAt);
      NullText(MemberOf(n, ObservedAt).value);
    }
  }

  /** Only the null literal reads null. */
  lemma NullText(n: Node)
    requires WellFormed(n) && Text(n) == "null"
    ensures n == NULL
  {
    hide Text, WellFormedLeaf;
    if n.Tree? {
      TreeText(n);
    } else {
      LeafText(n);
      NullLeaf(n.kind, n.text);
    }
  }

  lemma TreeText(n: Node)
    requires n.Tree?
    ensures Text(n) != "" && (Text(n)[0] == '{' || Text(n)[0] == '[')
  {
  }

  lemma LeafText(n: Node)
    requires n.Leaf?
    ensures Text(n) == n.text
  {
  }

  lemma NullLeaf(kind: Kind, t: string)
    requires t == "null" && WellFormedLeaf(kind, t)
    ensures kind == Null
  {
    hide IsNumber;
    if kind == Number {
      NumberStarts(t);
    }
  }

  lemma NumberStarts(t: string)
    requires IsNumber(t)
    ensures t != "" && (t[0] == '-' || IsDigit(t[0]))
  {
    var sign, whole, fraction, exponent :| NumberOf(t, sign, whole, fraction, exponent);
    assert whole != "" && IsDigit(whole[0]);
    assert t == sign + (whole + fraction + exponent);
  }

  /**
   * An exported row of a valid record passes the row check exactly if the record has no time of day, its build names
   * have the usual form, and its rule ids are different names of at least two characters that begin with a letter.
   */
  lemma RowPassesExactly(n: Node, session: string, id: string)
    requires ValidRecord(n) && WellFormed(n) && SessionShape(session) && TokenShape(id)
    ensures RowPasses(ObjectNode(ExportFields(n, session, id))) <==> Presentable(n)
  {
    hide *;
    var x := ObjectNode(ExportFields(n, session, id));
    ExportFieldsOnly(n, session, id);
    ExportedIs(n, session, id);
    AlwaysRanged(x, n, session, id);
    AlwaysSourced(x, n, session, id);
    TimelessIs(x, n, session, id);
    BuiltIs(x, n, session, id);
    Together(x, n);
  }

  lemma BuiltIs(x: Node, n: Node, session: string, id: string)
    requires Exported(x, n, session, id)
    ensures (Built(x) <==> Built(n)) && (NamesRules(x) <==> NamesRules(n))
  {
    hide Str, Int, MemberOf, Exported, Version, Pack, RuleName, IdOf;
    ExportedCopies(x, n, session, id, FirmwareVersion);
    ExportedCopies(x, n, session, id, SignaturePack);
    ExportedCopies(x, n, session, id, RuleIds);
  }

  lemma Together(x: Node, n: Node)
    requires FieldsOnly(x) && Placeless(x) && Anonymous(x) && Ranged(x) && Sourced(x) && Expected(x)
    requires (Timeless(x) <==> Str(n, TimeQuality) == Some("uptime_only")) && (Built(x) <==> Built(n))
        && (NamesRules(x) <==> NamesRules(n))
    ensures RowPasses(x) <==> Presentable(n)
  {
    hide FieldsOnly, Placeless, Anonymous, Ranged, Sourced, Expected, Timeless, Built, NamesRules, Str;
  }

  /** The same of lines: what the exporter completes, read again. */
  lemma ExportPassesExactly(line: string, hmac: Hmac)
    requires ValidLine(line) && Rekeyed(ParseText(line).node, hmac).Some?
    requires |ExportedLine(ParseText(line).node, hmac)| <= INPUT_MAX
    ensures var n := ParseText(line).node;
            var r := ParseText(ExportedLine(n, hmac));
            r.Done? && (RowPasses(r.node) <==> Presentable(n))
  {
    hide ValidRecord, MemberOf, ExportFields, StringNode, Rekeyed, ExportLine, ExportedLine, ParseText, ObjectNode,
        RowPasses, Presentable;
    var n := ParseText(line).node;
    var (session, id) := Rekeyed(n, hmac).value;
    LineWellFormed(line);
    ExportSound(line, hmac);
    RekeyedShapes(n, hmac);
    RowPassesExactly(n, session, id);
  }

  lemma RekeyedShapes(n: Node, hmac: Hmac)
    requires Rekeyed(n, hmac).Some?
    ensures SessionShape(Rekeyed(n, hmac).value.0) && TokenShape(Rekeyed(n, hmac).value.1)
  {
    hide Str, Group;
    var identity := hmac(Str(n, SessionId).GetOr("") + ":" + Str(n, Identifier).GetOr("")).value;
    AlphabetShape(identity, TOKEN_SIZE);
  }

  // ---- The firmware's own records ----

  /** As the rule compiler makes them: names that begin with a letter, each once. */
  predicate CompiledIds(rules: seq<Rule>) {
    && (forall i | 0 <= i < |rules| :: RuleName(rules[i].id))
    && forall i, j | 0 <= i < j < |rules| :: rules[i].id != rules[j].id
  }

  lemma OwnVersion()
    ensures Version(LogRecord.FIRMWARE)
  {
    assert LogRecord.FIRMWARE == "0" + "." + "1" + "." + "0" + "-dev";
    assert VersionOf(LogRecord.FIRMWARE, "0", "1", "0", "-dev");
  }

  lemma OwnPack()
    ensures Pack(LogRecord.PACK)
  {
    assert LogRecord.PACK == "v" + "1" + "-" + "303a0ad30896";
    assert PackOf(LogRecord.PACK, "1", "303a0ad30896");
  }

  lemma OwnNames(n: Node, rules: seq<Rule>)
    requires RecordFacts.ListsRules(n, rules) && CompiledIds(rules) && 1 <= |rules| <= 4
    ensures NamesRules(n)
  {
    hide MemberOf, StringOf, RuleName;
  }

  /**
   * The row check takes the export of one of the firmware's records exactly if the clock was not set when the record
   * was made.
   */
  lemma OwnExportPasses(d: Detection, c: LogRecord.Context, line: string, hmac: Hmac)
    requires OwnRecord(d, c, line) && |line| <= INPUT_MAX
    ensures ParseText(line).Done?
    ensures var n := ParseText(line).node;
            Rekeyed(n, hmac).Some? && |ExportedLine(n, hmac)| <= INPUT_MAX ==>
              var r := ParseText(ExportedLine(n, hmac));
              r.Done? && (RowPasses(r.node) <==> !(1577836800 <= d.unixSeconds <= 4102444799))
  {
    hide *;
    OwnLine(d, c, line);
    var n := ParseText(line).node;
    OwnPresentable(n, d, c, line);
    if Rekeyed(n, hmac).Some? && |ExportedLine(n, hmac)| <= INPUT_MAX {
      ExportPassesExactly(line, hmac);
    }
  }

  /** The line that the firmware writes for a detection. */
  ghost predicate OwnRecord(d: Detection, c: LogRecord.Context, line: string) {
    LogRecord.Loggable(d, c) && CompiledIds(d.rules) && line == RecordWriter.RecordLine(d, c)
  }

  lemma OwnLine(d: Detection, c: LogRecord.Context, line: string)
    requires OwnRecord(d, c, line) && |line| <= INPUT_MAX
    ensures ParseText(line).Done? && ValidLine(line)
  {
    hide ValidRecord, ParseText, LogRecord.RecordFields, ObjectNode, Text, LogRecord.CompiledRule, SessionShape,
        TokenShape, RuleName;
    LogRecord.WrittenAccepted(d, c, line);
  }

  lemma OwnPresentable(n: Node, d: Detection, c: LogRecord.Context, line: string)
    requires OwnRecord(d, c, line) && |line| <= INPUT_MAX && ParseText(line).Done? && n == ParseText(line).node
    ensures Presentable(n) <==> !(1577836800 <= d.unixSeconds <= 4102444799)
  {
    hide ParseText, RecordWriter.RecordLine, Str, Int, MemberOf, Version, Pack, NamesRules, RuleName, ObjectNode,
        LogRecord.RecordFields, LogRecord.CompiledRule, SessionShape, TokenShape;
    OwnVersion();
    OwnPack();
    RecordFacts.LineTells(d, c);
    OwnNames(n, d.rules);
    RecordFacts.LineNode(d, c);
    LogRecord.OriginRead(d, c);
  }
}
