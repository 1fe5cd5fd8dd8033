/**
 * The log record that write_record makes of a detection: its fields in order, the tree of its line, and why the record
 * check accepts it.
 */
module LogRecord {
  import opened Core
  import opened JsonText
  import opened JsonParser
  import opened JsonExact
  import opened JsonReader
  import opened JsonWriter
  import opened JsonFields
  import opened LogCheck
  import Engine

  const FIRMWARE: string := "0.1.0-dev"
  const PACK: string := "v1-303a0ad30896"
  const EVENT_BUFFER: nat := 96

  /** What the firmware adds to a detection when it writes a record. */
  datatype Context = Context(session: string, token: string, research: bool, region: nat)

  // ---- The parts of a record ----

  /** C division: towards zero. */
  function Quotient(a: int, b: nat): int
    requires b > 0
  {
    if a >= 0 then a / b else -((-a) / b)
  }

  function EventName(d: Detection, session: string): string {
    var id := session + "-" + Natural(d.lastMs) + "-" + Natural(d.category) + "-" + Natural(d.seenCount);
    id[..Min(EVENT_BUFFER - 1, |id|)]
  }

  function UpperHex(n: nat): char
    requires n < 16
  {
    if n < 10 then '0' + n as char else 'A' + (n - 10) as char
  }

  function Mac(address: seq<nat>): string
    requires forall i | 0 <= i < |address| :: address[i] < 256
  {
    if address == [] then ""
    else
      var n := |address| - 1;
      Mac(address[..n]) + (if n > 0 then ":" else "") + [UpperHex(address[n] / 16), UpperHex(address[n] % 16)]
  }

  /** What write_record refuses. */
  predicate Writable(d: Detection) {
    !d.demo && 1 <= |d.rules| <= 4 && d.category < CATEGORY_COUNT && d.seenCount > 0
  }

  /** Text that the rule compiler lets through: printable ASCII of limited length. */
  predicate RuleText(s: string, limit: nat) {
    1 <= |s| <= limit && forall i | 0 <= i < |s| :: 32 as char <= s[i] <= 126 as char
  }

  predicate RuleId(s: string) {
    2 <= |s| <= 64 && forall i | 0 <= i < |s| :: IdChar(s[i])
  }

  predicate CompiledRule(r: Rule) {
    RuleId(r.id) && RuleText(r.title, 40) && RuleText(r.reason, 120)
  }

  /** A detection and context as the firmware has them when it writes. */
  predicate Loggable(d: Detection, c: Context) {
    && Writable(d) && Engine.Consistent(d) && 1 <= d.score <= 100 && d.lastMs <= TIME_MAX && Octets(d.address)
    && (forall r | r in d.rules :: CompiledRule(r))
    && SessionShape(c.session) && TokenShape(c.token)
  }

  function IdNodes(rules: seq<Rule>): (nodes: seq<Node>)
    ensures |nodes| == |rules| && forall i | 0 <= i < |rules| :: nodes[i] == StringNode(rules[i].id)
  {
    if rules == [] then [] else IdNodes(rules[..|rules| - 1]) + [StringNode(rules[|rules| - 1].id)]
  }

  function StampNode(seconds: nat): Node {
    if Calendar.FormatUtc(seconds) == "" then NULL else StringNode(Calendar.FormatUtc(seconds))
  }

  function BoolNode(b: bool): Node {
    Leaf(Boolean, if b then "true" else "false")
  }

  // The members of a record, in order.

  function OriginFields(d: Detection, c: Context): (f: seq<Field>)
    ensures |f| == 7
  {
    [Field(SchemaVersion, NumberNode(1)),
     Field(FirmwareVersion, StringNode(FIRMWARE)),
     Field(Hardware, StringNode(HARDWARE)),
     Field(SignaturePack, StringNode(PACK)),
     Field(Region, StringNode(if c.region == 0 then "US" else "EU")),
     Field(EventId, StringNode(EventName(d, c.session))),
     Field(SessionId, StringNode(c.session))]
  }

  lemma CategoryAscii(category: nat)
    requires category < CATEGORY_COUNT
    ensures Ascii(CATEGORIES[category]) && |CATEGORIES[category]| < FIELD_BUFFER
  {
  }

  function TimeFields(d: Detection): (f: seq<Field>)
    ensures |f| == 4
  {
    [Field(ObservedAt, StampNode(d.unixSeconds)),
     Field(TimeQuality, StringNode(if Calendar.FormatUtc(d.unixSeconds) != "" then MANUAL else UPTIME_ONLY)),
     Field(UptimeMs, NumberNode(d.lastMs)),
     Field(FirstSeenMs, NumberNode(d.firstMs))]
  }

  function ClueFields(d: Detection, c: Context): (f: seq<Field>)
    requires Writable(d)
    ensures |f| == 6
  {
    [Field(Category, StringNode(CATEGORIES[d.category])),
     Field(Label, StringNode(d.rules[0].title)),
     Field(Confidence, StringNode(GradeName(d.score))),
     Field(Score, NumberNode(d.score)),
     Field(RuleIds, ListNode(IdNodes(d.rules))),
     Field(Reason, StringNode(d.rules[0].reason))]
  }

  function SignalFields(d: Detection): (f: seq<Field>)
    requires Writable(d)
    ensures |f| == 6
  {
    [Field(Key.Radio, StringNode(if d.radio == Wifi then "wifi" else "ble")),
     Field(Channel, NumberNode(d.channel)),
     Field(RssiMin, NumberNode(d.rssiMin)),
     Field(RssiMax, NumberNode(d.rssiMax)),
     Field(RssiAvg, NumberNode(Quotient(d.rssiSum, d.seenCount))),
     Field(SeenCount, NumberNode(d.seenCount))]
  }

  function PrivacyFields(d: Detection, c: Context): (f: seq<Field>)
    requires Octets(d.address)
    ensures |f| == if c.research then 5 else 4
  {
    [Field(Identifier, StringNode(c.token)),
     Field(AddressType, StringNode(if d.addressType != 0 then "random" else "public")),
     Field(MealAwarded, BoolNode(d.meal)),
     Field(PrivacyMode, StringNode(if c.research then RESEARCH_NAME else PRIVATE_NAME))]
    + if c.research then [Field(RawMac, StringNode(Mac(d.address)))] else []
  }

  function RecordFields(d: Detection, c: Context): seq<Field>
    requires Writable(d) && Octets(d.address)
  {
    OriginFields(d, c) + TimeFields(d) + ClueFields(d, c) + SignalFields(d) + PrivacyFields(d, c)
  }

  lemma ContextAscii(d: Detection, c: Context)
    requires Loggable(d, c)
    ensures Ascii(c.session) && Ascii(c.token) && Ascii(d.rules[0].title) && Ascii(d.rules[0].reason)
    ensures Ascii(EventName(d, c.session)) && 0 < |EventName(d, c.session)| < FIELD_BUFFER
    ensures Ascii(Mac(d.address)) && Ascii(Calendar.FormatUtc(d.unixSeconds))
    ensures Ascii(FIRMWARE) && Ascii(PACK) && Ascii(HARDWARE)
  {
    assert d.rules[0] in d.rules;
    EventAscii(d, c.session);
    MacAscii(d.address);
    StampAscii(d.unixSeconds);
    hide Natural, Mac;
  }

  lemma {:induction false} NaturalAscii(n: nat)
    ensures Ascii(Natural(n))
  {
    assert AllDigits(Natural(n));
  }

  lemma EventAscii(d: Detection, session: string)
    requires SessionShape(session)
    ensures Ascii(EventName(d, session)) && 0 < |EventName(d, session)| < FIELD_BUFFER
  {
    hide Natural;
    NaturalAscii(d.lastMs);
    NaturalAscii(d.category);
    NaturalAscii(d.seenCount);
  }

  lemma {:induction false} MacAscii(address: seq<nat>)
    requires forall i | 0 <= i < |address| :: address[i] < 256
    ensures Ascii(Mac(address))
  {
    if address != [] {
      MacAscii(address[..|address| - 1]);
    }
  }

  lemma StampAscii(seconds: nat)
    ensures Ascii(Calendar.FormatUtc(seconds))
  {
    hide Calendar.Padded, Calendar.DateOf;
  }

  // ---- Where the members are ----

  /** Member k of the record has the k-th key. */
  ghost predicate Ordered(fields: seq<Field>, first: nat) {
    forall i | 0 <= i < |fields| :: Ordinal(fields[i].key) == first + i
  }

  lemma OrderedTogether(a: seq<Field>, b: seq<Field>, first: nat)
    requires Ordered(a, first) && Ordered(b, first + |a|)
    ensures Ordered(a + b, first)
  {
    hide Ordinal;
  }

  lemma OriginOrdered(d: Detection, c: Context)
    ensures Ordered(OriginFields(d, c), 0)
  {
    hide StringNode, NumberNode, StampNode, ListNode, IdNodes, BoolNode, Mac, EventName, GradeName, Ascii, Quotient,
        Calendar.FormatUtc;
  }

  lemma TimeOrdered(d: Detection)
    ensures Ordered(TimeFields(d), 7)
  {
    hide StringNode, NumberNode, StampNode, ListNode, IdNodes, BoolNode, Mac, EventName, GradeName, Ascii, Quotient,
        Calendar.FormatUtc;
  }

  lemma ClueOrdered(d: Detection, c: Context)
    requires Writable(d)
    ensures Ordered(ClueFields(d, c), 11)
  {
    hide StringNode, NumberNode, StampNode, ListNode, IdNodes, BoolNode, Mac, EventName, GradeName, Ascii, Quotient,
        Calendar.FormatUtc;
  }

  lemma SignalOrdered(d: Detection)
    requires Writable(d)
    ensures Ordered(SignalFields(d), 17)
  {
    hide StringNode, NumberNode, StampNode, ListNode, IdNodes, BoolNode, Mac, EventName, GradeName, Ascii, Quotient,
        Calendar.FormatUtc;
  }

  lemma PrivacyOrdered(d: Detection, c: Context)
    requires Octets(d.address)
    ensures Ordered(PrivacyFields(d, c), 23)
  {
    hide StringNode, NumberNode, StampNode, ListNode, IdNodes, BoolNode, Mac, EventName, GradeName, Ascii, Quotient,
        Calendar.FormatUtc;
  }

  lemma RecordOrdered(d: Detection, c: Context)
    requires Writable(d) && Octets(d.address)
    ensures Ordered(RecordFields(d, c), 0) && DistinctFields(RecordFields(d, c))
        && |RecordFields(d, c)| == if c.research then 28 else 27
  {
    hide Ordered, OriginFields, TimeFields, ClueFields, SignalFields, PrivacyFields;
    var a, b, e, f, g := OriginFields(d, c), TimeFields(d), ClueFields(d, c), SignalFields(d), PrivacyFields(d, c);
    OriginOrdered(d, c);
    TimeOrdered(d);
    ClueOrdered(d, c);
    SignalOrdered(d);
    PrivacyOrdered(d, c);
    OrderedTogether(a, b, 0);
    OrderedTogether(a + b, e, 0);
    OrderedTogether(a + b + e, f, 0);
    OrderedTogether(a + b + e + f, g, 0);
    OrderedDistinct(a + b + e + f + g);
  }

  lemma OrderedDistinct(fields: seq<Field>)
    requires Ordered(fields, 0)
    ensures DistinctFields(fields)
  {
    hide Ordinal;
  }

  /** The field of this key is in the list. */
  ghost predicate Has(fields: seq<Field>, key: Key, node: Node) {
    exists i: nat :: i < |fields| && fields[i] == Field(key, node)
  }

  lemma HasMember(fields: seq<Field>, key: Key, node: Node)
    requires DistinctFields(fields) && Has(fields, key, node)
    ensures MemberOf(ObjectNode(fields), key) == Some(node)
  {
    hide Name, FindIn, DistinctFields;
    var i: nat :| i < |fields| && fields[i] == Field(key, node);
    FieldFound(fields, i);
  }

  lemma PartHas(fields: seq<Field>, part: seq<Field>, at: nat, i: nat)
    requires i < |part| && at + |part| <= |fields| && fields[at..at + |part|] == part
    ensures Has(fields, part[i].key, part[i].value)
  {
    assert fields[at + i] == fields[at..at + |part|][i] == part[i];
  }

  lemma RecordParts(d: Detection, c: Context)
    requires Writable(d) && Octets(d.address)
    ensures var f := RecordFields(d, c);
            && f[0..0 + 7] == OriginFields(d, c) && f[7..7 + 4] == TimeFields(d) && f[11..11 + 6] == ClueFields(d, c)
            && f[17..17 + 6] == SignalFields(d) && f[23..23 + |PrivacyFields(d, c)|] == PrivacyFields(d, c)
            && |f| == 23 + |PrivacyFields(d, c)|
  {
    hide OriginFields, TimeFields, ClueFields, SignalFields, PrivacyFields;
  }

  // ---- What the record check reads from them ----

  lemma StringRead(fields: seq<Field>, key: Key, s: string)
    requires DistinctFields(fields) && Ascii(s) && Has(fields, key, StringNode(s))
    ensures forall capacity: nat | capacity > |s| :: StringOf(MemberOf(ObjectNode(fields), key), capacity) == Some(s)
    ensures |s| < FIELD_BUFFER ==> Str(ObjectNode(fields), key) == Some(s)
  {
    hide Quoted, Decode, MemberOf, ObjectNode, DistinctFields, Has;
    HasMember(fields, key, StringNode(s));
    QuotedString(s);
  }

  lemma NumberRead(fields: seq<Field>, key: Key, n: int)
    requires DistinctFields(fields) && Has(fields, key, NumberNode(n))
    requires -0x8000_0000_0000_0000 <= n < 0x8000_0000_0000_0000
    ensures Int(ObjectNode(fields), key) == Some(n)
  {
    hide Decimal, IntegerOf, MemberOf, ObjectNode, DistinctFields, Has;
    HasMember(fields, key, NumberNode(n));
    DecimalReads(n);
  }

  /** The string members every record has. */
  lemma OriginRead(d: Detection, c: Context)
    requires Loggable(d, c)
    ensures var n := ObjectNode(RecordFields(d, c));
            && Str(n, FirmwareVersion) == Some(FIRMWARE) && Str(n, Hardware) == Some(HARDWARE)
                && Str(n, SignaturePack) == Some(PACK)
            && Str(n, Region) == Some(if c.region == 0 then "US" else "EU")
            && Str(n, EventId) == Some(EventName(d, c.session)) && Str(n, SessionId) == Some(c.session)
            && Int(n, SchemaVersion) == Some(1)
  {
    hide StringNode, NumberNode, EventName, RecordFields, Has, ObjectNode, Str, Int, Ascii, Engine.Consistent;
    var f, part := RecordFields(d, c), OriginFields(d, c);
    RecordOrdered(d, c);
    RecordParts(d, c);
    ContextAscii(d, c);
    RegionAscii();
    forall i: nat | i < 7 ensures Has(f, part[i].key, part[i].value) {
      PartHas(f, part, 0, i);
    }
    OriginIs(d, c);
    NumberRead(f, SchemaVersion, 1);
    StringRead(f, FirmwareVersion, FIRMWARE);
    StringRead(f, Hardware, HARDWARE);
    StringRead(f, SignaturePack, PACK);
    StringRead(f, Region, if c.region == 0 then "US" else "EU");
    StringRead(f, EventId, EventName(d, c.session));
    StringRead(f, SessionId, c.session);
  }

  lemma RegionAscii()
    ensures Ascii("US") && Ascii("EU")
  {
  }

  lemma OriginIs(d: Detection, c: Context)
    ensures var part := OriginFields(d, c);
            && part[0] == Field(SchemaVersion, NumberNode(1)) && part[1] == Field(FirmwareVersion, StringNode(FIRMWARE))
            && part[2] == Field(Hardware, StringNode(HARDWARE)) && part[3] == Field(SignaturePack, StringNode(PACK))
            && part[4] == Field(Region, StringNode(if c.region == 0 then "US" else "EU"))
            && part[5] == Field(EventId, StringNode(EventName(d, c.session)))
                && part[6] == Field(SessionId, StringNode(c.session))
  {
    hide StringNode, NumberNode, EventName;
  }

  lemma TimeRead(d: Detection, c: Context)
    requires Loggable(d, c)
    ensures var n, utc := ObjectNode(RecordFields(d, c)), Calendar.FormatUtc(d.unixSeconds);
            && MemberOf(n, ObservedAt) == Some(StampNode(d.unixSeconds))
            && Str(n, TimeQuality) == Some(if utc != "" then MANUAL else UPTIME_ONLY)
            && Int(n, UptimeMs) == Some(d.lastMs) && Int(n, FirstSeenMs) == Some(d.firstMs)
  {
    hide StringNode, NumberNode, StampNode, RecordFields, Has, ObjectNode, Str, Int, Ascii, MemberOf,
        Calendar.FormatUtc;
    var f, part := RecordFields(d, c), TimeFields(d);
    RecordOrdered(d, c);
    RecordParts(d, c);
    ChoiceAscii();
    forall i: nat | i < 4 ensures Has(f, part[i].key, part[i].value) {
      PartHas(f, part, 7, i);
    }
    TimeIs(d);
    HasMember(f, ObservedAt, StampNode(d.unixSeconds));
    StringRead(f, TimeQuality, if Calendar.FormatUtc(d.unixSeconds) != "" then MANUAL else UPTIME_ONLY);
    NumberRead(f, UptimeMs, d.lastMs);
    NumberRead(f, FirstSeenMs, d.firstMs);
  }

  lemma ChoiceAscii()
    ensures Ascii(MANUAL) && Ascii(UPTIME_ONLY) && Ascii("wifi") && Ascii("ble") && Ascii("random") && Ascii("public")
    ensures Ascii(PRIVATE_NAME) && Ascii(RESEARCH_NAME)
  {
  }

  lemma TimeIs(d: Detection)
    ensures var part := TimeFields(d);
            && part[0] == Field(ObservedAt, StampNode(d.unixSeconds))
            && part[1] == Field(TimeQuality, StringNode(if Calendar.FormatUtc(d.unixSeconds) != "" then MANUAL
                else UPTIME_ONLY))
            && part[2] == Field(UptimeMs, NumberNode(d.lastMs)) && part[3] == Field(FirstSeenMs, NumberNode(d.firstMs))
  {
    hide StringNode, NumberNode, StampNode, Calendar.FormatUtc;
  }

  lemma ClueRead(d: Detection, c: Context)
    requires Loggable(d, c)
    ensures var n := ObjectNode(RecordFields(d, c));
            && Str(n, Category) == Some(CATEGORIES[d.category]) && Str(n, Label) == Some(d.rules[0].title)
            && Str(n, Confidence) == Some(GradeName(d.score)) && Int(n, Score) == Some(d.score)
            && MemberOf(n, RuleIds) == Some(ListNode(IdNodes(d.rules))) && Str(n, Reason) == Some(d.rules[0].reason)
  {
    hide StringNode, NumberNode, ListNode, IdNodes, RecordFields, Has, ObjectNode, Str, Int, Ascii, MemberOf;
    var f, part := RecordFields(d, c), ClueFields(d, c);
    RecordOrdered(d, c);
    RecordParts(d, c);
    ContextAscii(d, c);
    CategoryAscii(d.category);
    GradeAscii(d.score);
    assert d.rules[0] in d.rules;
    forall i: nat | i < 6 ensures Has(f, part[i].key, part[i].value) {
      PartHas(f, part, 11, i);
    }
    ClueIs(d, c);
    StringRead(f, Category, CATEGORIES[d.category]);
    StringRead(f, Label, d.rules[0].title);
    StringRead(f, Confidence, GradeName(d.score));
    NumberRead(f, Score, d.score);
    HasMember(f, RuleIds, ListNode(IdNodes(d.rules)));
    StringRead(f, Reason, d.rules[0].reason);
  }

  lemma GradeAscii(score: nat)
    ensures Ascii(GradeName(score)) && |GradeName(score)| < FIELD_BUFFER
  {
  }

  lemma ClueIs(d: Detection, c: Context)
    requires Writable(d)
    ensures var part := ClueFields(d, c);
            && part[0] == Field(Category, StringNode(CATEGORIES[d.category]))
                && part[1] == Field(Label, StringNode(d.rules[0].title))
            && part[2] == Field(Confidence, StringNode(GradeName(d.score)))
                && part[3] == Field(Score, NumberNode(d.score))
            && part[4] == Field(RuleIds, ListNode(IdNodes(d.rules)))
                && part[5] == Field(Reason, StringNode(d.rules[0].reason))
  {
    hide StringNode, NumberNode, ListNode, IdNodes, GradeName;
  }

  lemma SignalRead(d: Detection, c: Context)
    requires Loggable(d, c)
    ensures var n := ObjectNode(RecordFields(d, c));
            && Str(n, Key.Radio) == Some(if d.radio == Wifi then "wifi" else "ble")
            && Int(n, Channel) == Some(d.channel) && Int(n, RssiMin) == Some(d.rssiMin)
                && Int(n, RssiMax) == Some(d.rssiMax)
            && Int(n, RssiAvg) == Some(Quotient(d.rssiSum, d.seenCount)) && Int(n, SeenCount) == Some(d.seenCount)
  {
    hide StringNode, NumberNode, RecordFields, Has, ObjectNode, Str, Int, Ascii, Quotient;
    var f, part := RecordFields(d, c), SignalFields(d);
    RecordOrdered(d, c);
    RecordParts(d, c);
    ChoiceAscii();
    AverageBetween(d.rssiSum, d.seenCount, d.rssiMin, d.rssiMax);
    forall i: nat | i < 6 ensures Has(f, part[i].key, part[i].value) {
      PartHas(f, part, 17, i);
    }
    SignalIs(d);
    StringRead(f, Key.Radio, if d.radio == Wifi then "wifi" else "ble");
    NumberRead(f, Channel, d.channel);
    NumberRead(f, RssiMin, d.rssiMin);
    NumberRead(f, RssiMax, d.rssiMax);
    NumberRead(f, RssiAvg, Quotient(d.rssiSum, d.seenCount));
    NumberRead(f, SeenCount, d.seenCount);
  }

  /** The mean of the signal strengths, rounded towards zero, stays between the extremes. */
  lemma AverageBetween(sum: int, count: nat, low: int, high: int)
    requires count > 0 && count * low <= sum <= count * high
    ensures low <= Quotient(sum, count) <= high
  {
    var q := Quotient(sum, count);
    if sum >= 0 {
      DivisionBounds(sum, count);
      Cancel(count, q, high + 1);
      Cancel(count, low, q + 1);
    } else {
      DivisionBounds(-sum, count);
      Cancel(count, -q, -low + 1);
      Cancel(count, -high, -q + 1);
    }
  }

  lemma Cancel(count: nat, a: int, b: int)
    requires count > 0
    ensures count * a < count * b ==> a < b
    ensures count * (b - 1) == count * b - count && count * -a == -(count * a)
  {
    if a >= b {
      assert count * a == count * b + count * (a - b);
      assert count * (a - b) >= 0;
    }
  }

  lemma DivisionBounds(a: nat, b: nat)
    requires b > 0
    ensures b * (a / b) <= a < b * (a / b + 1)
  {
    assert a == b * (a / b) + a % b;
    assert b * (a / b + 1) == b * (a / b) + b;
  }

  lemma SignalIs(d: Detection)
    requires Writable(d)
    ensures var part := SignalFields(d);
            && part[0] == Field(Key.Radio, StringNode(if d.radio == Wifi then "wifi" else "ble"))
            && part[1] == Field(Channel, NumberNode(d.channel)) && part[2] == Field(RssiMin, NumberNode(d.rssiMin))
            && part[3] == Field(RssiMax, NumberNode(d.rssiMax))
            && part[4] == Field(RssiAvg, NumberNode(Quotient(d.rssiSum, d.seenCount)))
            && part[5] == Field(SeenCount, NumberNode(d.seenCount))
  {
    hide StringNode, NumberNode, Quotient;
  }

  lemma PrivacyRead(d: Detection, c: Context)
    requires Loggable(d, c)
    ensures var n := ObjectNode(RecordFields(d, c));
            && Str(n, Identifier) == Some(c.token)
            && Str(n, AddressType) == Some(if d.addressType != 0 then "random" else "public")
            && MemberOf(n, MealAwarded) == Some(BoolNode(d.meal))
            && Str(n, PrivacyMode) == Some(if c.research then RESEARCH_NAME else PRIVATE_NAME)
            && (c.research ==> Str(n, RawMac) == Some(Mac(d.address)))
  {
    hide StringNode, BoolNode, RecordFields, Has, ObjectNode, Str, Ascii, MemberOf, Mac;
    var f, part := RecordFields(d, c), PrivacyFields(d, c);
    RecordOrdered(d, c);
    RecordParts(d, c);
    ContextAscii(d, c);
    ChoiceAscii();
    forall i: nat | i < 4 ensures Has(f, part[i].key, part[i].value) {
      PartHas(f, part, 23, i);
    }
    PrivacyIs(d, c);
    StringRead(f, Identifier, c.token);
    StringRead(f, AddressType, if d.addressType != 0 then "random" else "public");
    HasMember(f, MealAwarded, BoolNode(d.meal));
    StringRead(f, PrivacyMode, if c.research then RESEARCH_NAME else PRIVATE_NAME);
    if c.research {
      PartHas(f, part, 23, 4);
      MacLength(d.address);
      StringRead(f, RawMac, Mac(d.address));
    }
  }

  lemma {:induction false} MacLength(address: seq<nat>)
    requires forall i | 0 <= i < |address| :: address[i] < 256
    ensures |Mac(address)| == if address == [] then 0 else 3 * |address| - 1
  {
    if address != [] {
      MacLength(address[..|address| - 1]);
    }
  }

  lemma PrivacyIs(d: Detection, c: Context)
    requires Octets(d.address)
    ensures var part := PrivacyFields(d, c);
            && part[0] == Field(Identifier, StringNode(c.token))
            && part[1] == Field(AddressType, StringNode(if d.addressType != 0 then "random" else "public"))
            && part[2] == Field(MealAwarded, BoolNode(d.meal))
            && part[3] == Field(PrivacyMode, StringNode(if c.research then RESEARCH_NAME else PRIVATE_NAME))
            && (c.research ==> |part| == 5 && part[4] == Field(RawMac, StringNode(Mac(d.address))))
  {
    hide StringNode, BoolNode, Mac;
  }

  // ---- The record passes every check ----

  lemma RecordTexts(d: Detection, c: Context)
    requires Loggable(d, c)
    ensures TextsPresent(ObjectNode(RecordFields(d, c)))
  {
    hide RecordFields, ObjectNode, Str, Int, MemberOf, Engine.Consistent, EventName, Ascii, ListNode, GradeName;
    OriginRead(d, c);
    ClueRead(d, c);
    PrivacyRead(d, c);
    ContextAscii(d, c);
    assert d.rules[0] in d.rules;
  }

  lemma RecordIdentified(d: Detection, c: Context)
    requires Loggable(d, c)
    ensures Identified(ObjectNode(RecordFields(d, c)))
  {
    hide RecordFields, ObjectNode, Str, Int, MemberOf, EventName, Ascii, ListNode, GradeName, CompiledRule, Octets,
        Engine.Consistent,
         SessionShape, TokenShape;
    OriginRead(d, c);
    ClueRead(d, c);
    PrivacyRead(d, c);
  }

  lemma RecordCounted(d: Detection, c: Context)
    requires Loggable(d, c)
    ensures Counted(ObjectNode(RecordFields(d, c)))
  {
    hide RecordFields, ObjectNode, Str, Int, MemberOf, CompiledRule, Octets, Quotient, SessionShape, TokenShape,
        GradeName,
         EventName, ListNode, StampNode, Calendar.FormatUtc;
    OriginRead(d, c);
    TimeRead(d, c);
    ClueRead(d, c);
    SignalRead(d, c);
  }

  lemma RecordMeasured(d: Detection, c: Context)
    requires Loggable(d, c)
    ensures Measured(ObjectNode(RecordFields(d, c)))
  {
    hide RecordFields, ObjectNode, Str, Int, MemberOf, CompiledRule, Octets, Quotient, SessionShape, TokenShape;
    SignalRead(d, c);
    AverageBetween(d.rssiSum, d.seenCount, d.rssiMin, d.rssiMax);
  }

  lemma RecordChosen(d: Detection, c: Context)
    requires Loggable(d, c)
    ensures Chosen(ObjectNode(RecordFields(d, c))) && Fed(ObjectNode(RecordFields(d, c)))
  {
    hide RecordFields, ObjectNode, Str, MemberOf, Engine.Consistent, CompiledRule, SessionShape, TokenShape, Octets;
    OriginRead(d, c);
    TimeRead(d, c);
    SignalRead(d, c);
    PrivacyRead(d, c);
  }

  /** The printed time has the shape that is asked for, and parse_utc takes it; without one, null stands there. */
  lemma RecordTimed(d: Detection, c: Context)
    requires Loggable(d, c)
    ensures Timed(ObjectNode(RecordFields(d, c)))
  {
    hide RecordFields, ObjectNode, Str, MemberOf, Loggable, Ascii, Readable, Decode, Quoted,
         Calendar.StampShape, Calendar.StampDigits, Calendar.ParseUtc, Calendar.DateOf, Calendar.Stamp;
    TimeRead(d, c);
    NamesOfTime();
    var utc := Calendar.FormatUtc(d.unixSeconds);
    if utc != "" {
      StampAscii(d.unixSeconds);
      Calendar.ParsesFormatted(d.unixSeconds);
      StampReadable(utc);
    }
  }

  lemma NamesOfTime()
    ensures UPTIME_ONLY != MANUAL && Text(NULL) == "null"
  {
    assert |UPTIME_ONLY| != |MANUAL|;
  }

  lemma StampReadable(utc: string)
    requires Ascii(utc) && Calendar.StampShape(utc)
    ensures StringOf(Some(StringNode(utc)), UTC_BUFFER) == Some(utc)
  {
    hide Quoted, Decode;
    QuotedString(utc);
  }

  lemma IdReadable(r: Rule)
    requires CompiledRule(r)
    ensures IdNode(StringNode(r.id)) && WellFormed(StringNode(r.id))
  {
    hide Quoted, Decode, IsString;
    QuotedString(r.id);
  }

  lemma RecordRuled(d: Detection, c: Context)
    requires Loggable(d, c)
    ensures Ruled(ObjectNode(RecordFields(d, c)))
  {
    hide RecordFields, ObjectNode, Str, MemberOf, Engine.Consistent, IdNode, StringNode, CompiledRule, SessionShape,
        TokenShape, Octets;
    ClueRead(d, c);
    forall i | 0 <= i < |d.rules| ensures IdNode(IdNodes(d.rules)[i]) {
      assert d.rules[i] in d.rules;
      IdReadable(d.rules[i]);
    }
  }

  lemma RecordValid(d: Detection, c: Context)
    requires Loggable(d, c)
    ensures ValidRecord(ObjectNode(RecordFields(d, c)))
  {
    hide RecordFields, Members, TextsPresent, Identified, Counted, Measured, Chosen, Timed, Fed, Ruled, Loggable;
    RecordTexts(d, c);
    RecordIdentified(d, c);
    RecordCounted(d, c);
    RecordMeasured(d, c);
    RecordChosen(d, c);
    RecordTimed(d, c);
    RecordRuled(d, c);
  }

  // ---- The record is JSON within the reader's bounds ----

  ghost predicate GoodLeaf(n: Node) {
    n.Leaf? && WellFormed(n)
  }

  ghost predicate GoodLeaves(fields: seq<Field>) {
    forall f | f in fields :: GoodLeaf(f.value)
  }

  lemma StringGood(s: string)
    ensures GoodLeaf(StringNode(s))
  {
    hide Quoted, IsString, Decode;
    QuotedString(s);
  }

  lemma NumberGood(n: int)
    requires -0x8000_0000_0000_0000 <= n < 0x8000_0000_0000_0000
    ensures GoodLeaf(NumberNode(n))
  {
    hide Decimal, IsNumber, IntegerOf;
    DecimalReads(n);
  }

  lemma StampGood(seconds: nat)
    ensures GoodLeaf(StampNode(seconds))
  {
    hide Calendar.FormatUtc, StringNode, IsString;
    StringGood(Calendar.FormatUtc(seconds));
  }

  lemma OriginGood(d: Detection, c: Context)
    ensures GoodLeaves(OriginFields(d, c))
  {
    hide GoodLeaf, StringNode, NumberNode, EventName;
    NumberGood(1);
    StringGood(FIRMWARE);
    StringGood(HARDWARE);
    StringGood(PACK);
    StringGood("US");
    StringGood("EU");
    StringGood(EventName(d, c.session));
    StringGood(c.session);
  }

  lemma TimeGood(d: Detection)
    requires d.lastMs <= TIME_MAX && d.firstMs <= d.lastMs
    ensures GoodLeaves(TimeFields(d))
  {
    hide GoodLeaf, StringNode, NumberNode, StampNode, Calendar.FormatUtc;
    StampGood(d.unixSeconds);
    StringGood(MANUAL);
    StringGood(UPTIME_ONLY);
    NumberGood(d.lastMs);
    NumberGood(d.firstMs);
  }

  lemma SignalGood(d: Detection)
    requires Writable(d) && Engine.Consistent(d)
    ensures GoodLeaves(SignalFields(d))
  {
    hide GoodLeaf, StringNode, NumberNode, Quotient;
    AverageBetween(d.rssiSum, d.seenCount, d.rssiMin, d.rssiMax);
    StringGood("wifi");
    StringGood("ble");
    NumberGood(d.channel);
    NumberGood(d.rssiMin);
    NumberGood(d.rssiMax);
    NumberGood(Quotient(d.rssiSum, d.seenCount));
    NumberGood(d.seenCount);
  }

  lemma PrivacyGood(d: Detection, c: Context)
    requires Octets(d.address)
    ensures GoodLeaves(PrivacyFields(d, c))
  {
    hide GoodLeaf, StringNode, BoolNode, Mac;
    StringGood(c.token);
    StringGood("random");
    StringGood("public");
    BoolGood(d.meal);
    StringGood(PRIVATE_NAME);
    StringGood(RESEARCH_NAME);
    StringGood(Mac(d.address));
  }

  lemma BoolGood(b: bool)
    ensures GoodLeaf(BoolNode(b))
  {
  }

  /** All clue fields but the list are leaves; the list holds leaves. */
  lemma ClueGood(d: Detection, c: Context)
    requires Loggable(d, c)
    ensures var f := ClueFields(d, c);
            && (forall i | 0 <= i < 6 && i != 4 :: GoodLeaf(f[i].value))
            && WellFormed(f[4].value) && Tokens(f[4].value) == 1 + |d.rules| && Height(f[4].value) == 1
  {
    hide GoodLeaf, StringNode, NumberNode, GradeName, WellFormed, Tokens, Height, BareAll, Engine.Consistent;
    ClueIs(d, c);
    StringGood(CATEGORIES[d.category]);
    StringGood(d.rules[0].title);
    StringGood(GradeName(d.score));
    NumberGood(d.score);
    StringGood(d.rules[0].reason);
    IdsGood(d.rules);
    ListBounds(IdNodes(d.rules));
  }

  lemma IdsGood(rules: seq<Rule>)
    ensures forall n | n in IdNodes(rules) :: n.Leaf? && WellFormed(n)
  {
    hide StringNode, WellFormed;
    forall n | n in IdNodes(rules) ensures n.Leaf? && WellFormed(n) {
      var i :| 0 <= i < |rules| && n == IdNodes(rules)[i];
      StringGood(rules[i].id);
    }
  }

  const RULES_AT: nat := 15

  /** Every member but the rule list is a leaf, and all of them are well formed. */
  lemma RecordGood(d: Detection, c: Context)
    requires Loggable(d, c)
    ensures var f := RecordFields(d, c);
            && (forall i | 0 <= i < |f| && i != RULES_AT :: GoodLeaf(f[i].value))
            && WellFormed(f[RULES_AT].value) && Tokens(f[RULES_AT].value) == 1 + |d.rules|
                && Height(f[RULES_AT].value) == 1
  {
    hide GoodLeaf, WellFormed, Tokens, Height, OriginFields, TimeFields, ClueFields, SignalFields, PrivacyFields,
        CompiledRule, SessionShape,
         TokenShape, RecordFields;
    var a, b, e, g, h := OriginFields(d, c), TimeFields(d), ClueFields(d, c), SignalFields(d), PrivacyFields(d, c);
    OriginGood(d, c);
    TimeGood(d);
    ClueGood(d, c);
    SignalGood(d);
    PrivacyGood(d, c);
    RecordParts(d, c);
    forall i | 0 <= i < |RecordFields(d, c)| && i != RULES_AT ensures GoodLeaf(RecordFields(d, c)[i].value) {
      PartAt(d, c, i);
    }
    PartAt(d, c, RULES_AT);
  }

  /** Member i of the record is a member of one of its parts. */
  lemma PartAt(d: Detection, c: Context, i: nat)
    requires Writable(d) && Octets(d.address) && i < |RecordFields(d, c)|
    ensures var x := RecordFields(d, c)[i];
            if i < 7 then x in OriginFields(d, c)
            else if i < 11 then x in TimeFields(d)
            else if i < 17 then x == ClueFields(d, c)[i - 11]
            else if i < 23 then x in SignalFields(d)
            else x in PrivacyFields(d, c)
  {
    hide OriginFields, TimeFields, ClueFields, SignalFields, PrivacyFields;
  }

  /**
   * Whatever the firmware writes as a complete log record, the record check accepts: neither the recovery scan nor
   * the exporter ever takes its own log for corrupt.
   */
  lemma WrittenAccepted(d: Detection, c: Context, line: string)
    requires Loggable(d, c) && line == Text(ObjectNode(RecordFields(d, c))) + "\n" && |line| <= INPUT_MAX
    ensures ValidLine(line)
  {
    hide RecordFields, ObjectNode, ValidRecord, Text, WellFormed, Fits, ParseText, Members, Engine.Consistent,
        CompiledRule, SessionShape,
         TokenShape;
    RecordValid(d, c);
    RecordFits(d, c);
    NewlineBlank();
    assert line == "" + Text(ObjectNode(RecordFields(d, c))) + "\n";
    ReadsIsParsed(line, "", ObjectNode(RecordFields(d, c)), "\n");
  }

  lemma NewlineBlank()
    ensures Blank("\n") && Blank("")
  {
  }

  lemma RecordFits(d: Detection, c: Context)
    requires Loggable(d, c)
    ensures WellFormed(ObjectNode(RecordFields(d, c))) && Fits(ObjectNode(RecordFields(d, c)), 0, 0)
  {
    hide RecordFields, WellFormed, Tokens, Height, Members, CompiledRule, SessionShape, TokenShape, Engine.Consistent;
    var f := RecordFields(d, c);
    RecordOrdered(d, c);
    RecordGood(d, c);
    forall x | x in f ensures WellFormed(x.value) {
      var i :| 0 <= i < |f| && f[i] == x;
      assert i != RULES_AT ==> GoodLeaf(f[i].value);
    }
    ObjectWellFormed(f);
    ObjectBounds(f, RULES_AT, |d.rules|);
  }
}
