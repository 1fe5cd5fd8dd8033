/** What a reader is told by a log record, member by member. */
module RecordFacts {
  import opened Core
  import opened JsonText
  import opened JsonParser
  import opened JsonExact
  import opened JsonReader
  import opened JsonWriter
  import opened JsonFields
  import opened LogCheck
  import opened LogRecord
  import opened RecordWriter
  import Calendar
  import Engine

  // ---- Numbers and dashes ----

  predicate Numeral(t: string) {
    t != "" && AllDigits(t)
  }

  /** The tree that the parser makes of a record's line. */
  lemma LineNode(d: Detection, c: Context)
    requires Loggable(d, c) && |RecordLine(d, c)| <= INPUT_MAX
    ensures ParseText(RecordLine(d, c)).Done? && ParseText(RecordLine(d, c)).node == ObjectNode(RecordFields(d, c))
  {
    hide RecordFields, ObjectNode, Text, WellFormed, Fits, ParseText, Members, Engine.Consistent, CompiledRule,
        SessionShape, TokenShape;
    RecordFits(d, c);
    NewlineBlank();
    assert RecordLine(d, c) == "" + Text(ObjectNode(RecordFields(d, c))) + "\n";
    ReadsIsParsed(RecordLine(d, c), "", ObjectNode(RecordFields(d, c)), "\n");
  }

  /** A numeral below 10^k has at most k digits. */
  function Ten(k: nat): nat {
    if k == 0 then 1 else 10 * Ten(k - 1)
  }

  lemma {:induction false} NaturalShort(n: nat, k: nat)
    requires n < Ten(k) && k > 0
    ensures |Natural(n)| <= k
  {
    if n >= 10 {
      NaturalShort(n / 10, k - 1);
    }
  }

  // ---- The event id ----

  /** The id splits into the session, and the numerals of the time, the category and the count. */
  ghost predicate Names(id: string, session: string, time: nat, category: nat, count: nat) {
    exists a, b, e ::
      && Numeral(a) && Numeral(b) && Numeral(e)
      && id == session + ("-" + (a + ("-" + (b + ("-" + e)))))
      && DigitsValue(a) == time && DigitsValue(b) == category && DigitsValue(e) == count
  }

  lemma EventNames(d: Detection, session: string)
    requires |session| == 32 && d.lastMs <= TIME_MAX && d.category < CATEGORY_COUNT && d.seenCount <= SEEN_MAX
    ensures Names(EventName(d, session), session, d.lastMs, d.category, d.seenCount)
  {
    hide Natural, DigitsValue;
    var a, b, e := Natural(d.lastMs), Natural(d.category), Natural(d.seenCount);
    NaturalValue(d.lastMs);
    NaturalValue(d.category);
    NaturalValue(d.seenCount);
    Tens();
    NaturalShort(d.lastMs, 16);
    NaturalShort(d.category, 2);
    NaturalShort(d.seenCount, 10);
    var id := session + "-" + a + "-" + b + "-" + e;
    assert id == session + ("-" + (a + ("-" + (b + ("-" + e)))));
    assert EventName(d, session) == id;
  }

  lemma Tens()
    ensures Ten(2) == 100 && Ten(10) == 10000000000 && Ten(16) == 10000000000000000
  {
    assert Ten(4) == 10000;
    assert Ten(8) == 100000000;
    assert Ten(12) == 1000000000000;
  }

  /** A numeral ends at the first dash. */
  lemma {:induction false} NumeralEnds(a: string, x: string, b: string, y: string)
    requires AllDigits(a) && AllDigits(b) && a + ("-" + x) == b + ("-" + y)
    ensures a == b && x == y
  {
    var s := a + ("-" + x);
    assert s[|a|] == '-' && s[|b|] == '-';
    assert (forall i | 0 <= i < |a| :: s[i] == a[i]) && (forall i | 0 <= i < |b| :: s[i] == b[i]);
    assert s[..|a|] == a && s[..|b|] == b;
    assert s[|a| + 1..] == x && s[|b| + 1..] == y;
  }

  /** Records with the same event id agree in session, time, category and count. */
  lemma SameEvent(d: Detection, session: string, other: Detection, otherSession: string)
    requires |session| == |otherSession| == 32 && EventName(d, session) == EventName(other, otherSession)
    requires d.lastMs <= TIME_MAX && d.category < CATEGORY_COUNT && d.seenCount <= SEEN_MAX
    requires other.lastMs <= TIME_MAX && other.category < CATEGORY_COUNT && other.seenCount <= SEEN_MAX
    ensures session == otherSession && d.lastMs == other.lastMs && d.category == other.category
    ensures d.seenCount == other.seenCount
  {
    hide DigitsValue, EventName;
    EventNames(d, session);
    EventNames(other, otherSession);
    var a, b, e :| Numeral(a) && Numeral(b) && Numeral(e)
      && EventName(d, session) == session + ("-" + (a + ("-" + (b + ("-" + e)))))
      && DigitsValue(a) == d.lastMs && DigitsValue(b) == d.category && DigitsValue(e) == d.seenCount;
    var f, g, h :| Numeral(f) && Numeral(g) && Numeral(h)
      && EventName(other, otherSession) == otherSession + ("-" + (f + ("-" + (g + ("-" + h)))))
      && DigitsValue(f) == other.lastMs && DigitsValue(g) == other.category && DigitsValue(h) == other.seenCount;
    var x, y := "-" + (a + ("-" + (b + ("-" + e)))), "-" + (f + ("-" + (g + ("-" + h))));
    SamePrefix(session, x, otherSession, y);
    assert x[1..] == a + ("-" + (b + ("-" + e))) && y[1..] == f + ("-" + (g + ("-" + h)));
    NumeralEnds(a, b + ("-" + e), f, g + ("-" + h));
    NumeralEnds(b, e, g, h);
  }

  lemma SamePrefix(a: string, x: string, b: string, y: string)
    requires |a| == |b| && a + x == b + y
    ensures a == b && x == y
  {
    assert (a + x)[..|a|] == a && (b + y)[..|b|] == b;
    assert (a + x)[|a|..] == x && (b + y)[|b|..] == y;
  }

  // ---- The other members ----

  /** q is a quotient rounded towards zero. */
  predicate Truncates(q: int, sum: int, count: nat) {
    if sum >= 0 then q >= 0 && count * q <= sum < count * (q + 1)
    else q <= 0 && count * (q - 1) < sum <= count * q
  }

  lemma AverageTruncates(sum: int, count: nat)
    requires count > 0
    ensures Truncates(Quotient(sum, count), sum, count)
  {
    hide Truncates, Quotient;
    if sum >= 0 {
      AverageUp(sum, count);
    } else {
      AverageDown(-sum, count);
    }
  }

  lemma AverageUp(a: int, count: nat)
    requires a >= 0 && count > 0
    ensures Truncates(Quotient(a, count), a, count)
  {
    hide Truncates, Quotient;
    var q := Divided(a, count);
    QuotientPositive(a, count);
    TruncatesUp(q, a, count);
  }

  lemma QuotientPositive(a: int, count: nat)
    requires a >= 0 && count > 0
    ensures Quotient(a, count) == a / count
  {
  }

  lemma AverageDown(a: int, count: nat)
    requires a > 0 && count > 0
    ensures Truncates(Quotient(-a, count), -a, count)
  {
    hide Truncates, Quotient;
    var q := QuotientOf(a, count);
    TruncatesDown(q, a, count);
  }

  lemma QuotientOf(a: int, count: nat) returns (q: int)
    requires a > 0 && count > 0
    ensures Quotient(-a, count) == -q && q >= 0 && count * q <= a < count * (q + 1)
  {
    hide Quotient;
    QuotientNegative(a, count);
    q := Divided(a, count);
  }

  lemma Divided(a: nat, count: nat) returns (q: nat)
    requires count > 0
    ensures q == a / count && count * q <= a < count * (q + 1)
  {
    var r: nat;
    q, r := a / count, a % count;
    Bounds(a, count, q, r);
  }

  lemma Bounds(a: int, count: int, q: int, r: int)
    requires a == count * q + r && 0 <= r < count
    ensures count * q <= a < count * (q + 1)
  {
    assert count * (q + 1) == count * q + count;
  }

  lemma QuotientNegative(a: int, count: nat)
    requires a > 0 && count > 0
    ensures Quotient(-a, count) == -(a / count)
  {
    assert -(-a) == a;
  }

  lemma TruncatesUp(q: int, sum: int, count: nat)
    requires q >= 0 && sum >= 0 && count * q <= sum < count * (q + 1)
    ensures Truncates(q, sum, count)
  {
  }

  lemma TruncatesDown(q: int, a: int, count: nat)
    requires q >= 0 && a > 0 && count * q <= a < count * (q + 1)
    ensures Truncates(-q, -a, count)
  {
    assert count * -q == -(count * q);
    assert count * (-q - 1) == -(count * (q + 1));
  }

  lemma {:induction false} MacDigits(address: seq<nat>, k: nat)
    requires (forall i | 0 <= i < |address| :: address[i] < 256) && k < |address|
    ensures |Mac(address)| == 3 * |address| - 1
    ensures var m := Mac(address);
            && IsHex(m[3 * k]) && IsHex(m[3 * k + 1]) && HexValue(m[3 * k]) * 16 + HexValue(m[3 * k + 1]) == address[k]
            && (k + 1 < |address| ==> m[3 * k + 2] == ':')
  {
    var n := |address| - 1;
    var head := address[..n];
    MacLength(address);
    MacLength(head);
    if k < n {
      MacDigits(head, k);
      assert Mac(address)[..|Mac(head)|] == Mac(head);
    }
  }

  /** A grade by its thresholds. */
  predicate Graded(name: string, score: nat) {
    && (name == "high" <==> score >= 80) && (name == "medium" <==> 50 <= score < 80)
    && (name == "low" <==> 20 <= score < 50) && (name == "informational" <==> score < 20)
  }

  lemma GradeGraded(score: nat)
    ensures Graded(GradeName(score), score)
  {
    assert |"high"| == 4 && |"medium"| == 6 && |"low"| == 3 && |"informational"| == 13;
  }

  lemma CategoryNames(a: nat, b: nat)
    requires a < CATEGORY_COUNT && b < CATEGORY_COUNT && CATEGORIES[a] == CATEGORIES[b]
    ensures a == b
  {
    CategoryCode(a);
    CategoryCode(b);
  }

  /** The names differ in length, or in their first or last two letters. */
  function CodeOf(name: string): nat
    requires |name| >= 3
  {
    ((|name| * 128 + name[0] as nat) * 128 + name[1] as nat) * 128 + name[|name| - 1] as nat
  }

  function CategoryOf(code: nat): nat {
    if code == 11642443 then 0
    else if code == 9464910 then 1
    else if code == 15853139 then 2
    else if code == 16049618 then 3
    else if code == 11837646 then 4
    else if code == 13657287 then 5
    else if code == 9774277 then 6
    else if code == 24436935 then 7
    else if code == 22144967 then 8
    else if code == 11610437 then 9
    else if code == 9463378 then 10
    else if code == 13689025 then 11
    else if code == 9741511 then 12
    else if code == 15884622 then 13
    else if code == 15836754 then 14
    else if code == 22293449 then 15
    else if code == 20194501 then 16
    else if code == 13705928 then 17
    else 18
  }

  lemma CategoryCode(c: nat)
    requires c < CATEGORY_COUNT
    ensures |CATEGORIES[c]| >= 3 && CategoryOf(CodeOf(CATEGORIES[c])) == c
  {
    hide CategoryOf, CodeOf;
    if c < 7 {
      CategoryCode1(c);
    } else if c < 13 {
      CategoryCode2(c);
    } else {
      CategoryCode3(c);
    }
  }

  lemma CategoryCode1(c: nat)
    requires c < 7
    ensures |CATEGORIES[c]| >= 3 && CategoryOf(CodeOf(CATEGORIES[c])) == c
  {
  }

  lemma CategoryCode2(c: nat)
    requires 7 <= c < 13
    ensures |CATEGORIES[c]| >= 3 && CategoryOf(CodeOf(CATEGORIES[c])) == c
  {
  }

  lemma CategoryCode3(c: nat)
    requires 13 <= c < 19
    ensures |CATEGORIES[c]| >= 3 && CategoryOf(CodeOf(CATEGORIES[c])) == c
  {
  }

  /** Reading the list of rule ids gives the ids of the rules, in order. */
  ghost predicate ListsRules(n: Node, rules: seq<Rule>) {
    && MemberOf(n, RuleIds).Some?
    && var list := MemberOf(n, RuleIds).value;
       && list.Tree? && !list.obj && |list.elems| == |rules|
       && forall i | 0 <= i < |rules| :: StringOf(Some(list.elems[i].value), 65) == Some(rules[i].id)
  }

  lemma RulesListed(n: Node, rules: seq<Rule>)
    requires MemberOf(n, RuleIds) == Some(ListNode(IdNodes(rules))) && forall r | r in rules :: RuleId(r.id)
    ensures ListsRules(n, rules)
  {
    hide MemberOf, StringNode, StringOf;
    forall i | 0 <= i < |rules|
      ensures StringOf(Some(ListNode(IdNodes(rules)).elems[i].value), 65) == Some(rules[i].id)
    {
      assert rules[i] in rules;
      IdRead(rules[i].id);
    }
  }

  lemma IdRead(id: string)
    requires RuleId(id)
    ensures StringOf(Some(StringNode(id)), 65) == Some(id)
  {
    hide Quoted, Decode, IsString;
    QuotedString(id);
  }

  /** What the members of a record say, in terms of the detection it was written for. */
  ghost predicate Tells(n: Node, d: Detection, c: Context) {
    && Int(n, SchemaVersion) == Some(1) && Str(n, SessionId) == Some(c.session) && Str(n, Identifier) == Some(c.token)
    && Str(n, EventId).Some? && Names(Str(n, EventId).value, c.session, d.lastMs, d.category, d.seenCount)
    && Str(n, Region) == Some(if c.region == 0 then "US" else "EU")
    && Int(n, UptimeMs) == Some(d.lastMs) && Int(n, FirstSeenMs) == Some(d.firstMs)
    && Int(n, Score) == Some(d.score) && Int(n, SeenCount) == Some(d.seenCount) && Int(n, Channel) == Some(d.channel)
    && Int(n, RssiMin) == Some(d.rssiMin) && Int(n, RssiMax) == Some(d.rssiMax)
    && Int(n, RssiAvg).Some? && Truncates(Int(n, RssiAvg).value, d.rssiSum, d.seenCount)
  }

  ghost predicate TellsMore(n: Node, d: Detection, c: Context)
    requires d.category < CATEGORY_COUNT && d.rules != []
  {
    && Str(n, Category) == Some(CATEGORIES[d.category])
    && Str(n, Confidence).Some? && Graded(Str(n, Confidence).value, d.score)
    && Str(n, Label) == Some(d.rules[0].title) && Str(n, Reason) == Some(d.rules[0].reason) && ListsRules(n, d.rules)
    && Str(n, Key.Radio) == Some(if d.radio == Wifi then "wifi" else "ble")
    && Str(n, AddressType) == Some(if d.addressType != 0 then "random" else "public")
    && Str(n, PrivacyMode) == Some(if c.research then "research" else "private")
    && MemberOf(n, MealAwarded) == Some(Leaf(Boolean, if d.meal then "true" else "false"))
  }

  /** The clock time is there exactly if the clock was set, and is then read back to the minute. */
  ghost predicate TellsTime(n: Node, d: Detection) {
    if 1577836800 <= d.unixSeconds <= 4102444799 then
      && Str(n, TimeQuality) == Some("manual")
      && var utc := StringOf(MemberOf(n, ObservedAt), 24);
         utc.Some? && Calendar.StampShape(utc.value)
         && Calendar.ParseUtc(Calendar.StampDigits(utc.value)) == Some(d.unixSeconds - d.unixSeconds % 60)
    else Str(n, TimeQuality) == Some("uptime_only") && MemberOf(n, ObservedAt) == Some(Leaf(Null, "null"))
  }

  lemma RecordTells(d: Detection, c: Context)
    requires Loggable(d, c)
    ensures Tells(ObjectNode(RecordFields(d, c)), d, c)
  {
    hide RecordFields, ObjectNode, Str, Int, MemberOf, EventName, CompiledRule, TokenShape, Octets, Quotient, Names,
        Truncates, ListNode, GradeName;
    OriginRead(d, c);
    TimeRead(d, c);
    ClueRead(d, c);
    SignalRead(d, c);
    PrivacyRead(d, c);
    EventNames(d, c.session);
    AverageTruncates(d.rssiSum, d.seenCount);
  }

  lemma RecordTellsMore(d: Detection, c: Context)
    requires Loggable(d, c)
    ensures TellsMore(ObjectNode(RecordFields(d, c)), d, c)
  {
    hide RecordFields, ObjectNode, Str, Int, MemberOf, EventName, SessionShape, TokenShape, Octets, Quotient,
        ListsRules, Graded, GradeName, ListNode;
    ClueRead(d, c);
    SignalRead(d, c);
    PrivacyRead(d, c);
    GradeGraded(d.score);
    assert forall r | r in d.rules :: CompiledRule(r);
    RulesListed(ObjectNode(RecordFields(d, c)), d.rules);
  }

  lemma RecordTellsTime(d: Detection, c: Context)
    requires Loggable(d, c)
    ensures TellsTime(ObjectNode(RecordFields(d, c)), d)
  {
    hide RecordFields, ObjectNode, Str, Int, MemberOf, Loggable, Ascii, Readable, Decode, Quoted, Calendar.StampShape,
        Calendar.StampDigits, Calendar.ParseUtc, Calendar.DateOf, Calendar.Stamp;
    TimeRead(d, c);
    var utc := Calendar.FormatUtc(d.unixSeconds);
    if utc != "" {
      StampAscii(d.unixSeconds);
      Calendar.ParsesFormatted(d.unixSeconds);
      StampReadable(utc);
    }
  }

  /** All that a record says. */
  ghost predicate TellsAll(n: Node, d: Detection, c: Context) {
    && d.category < CATEGORY_COUNT && d.rules != [] && Octets(d.address)
    && Tells(n, d, c) && TellsMore(n, d, c) && TellsTime(n, d)
    && (c.research ==> Str(n, RawMac) == Some(Mac(d.address)))
  }

  lemma RecordTellsAll(d: Detection, c: Context)
    requires Loggable(d, c)
    ensures TellsAll(ObjectNode(RecordFields(d, c)), d, c)
  {
    hide RecordFields, ObjectNode, Tells, TellsMore, TellsTime, CompiledRule, SessionShape, TokenShape, Str, Mac,
        MemberOf, Engine.Consistent;
    RecordTells(d, c);
    RecordTellsMore(d, c);
    RecordTellsTime(d, c);
    PrivacyRead(d, c);
  }

  /** What the reader gets from the line of a record. */
  lemma LineTells(d: Detection, c: Context)
    requires Loggable(d, c) && |RecordLine(d, c)| <= INPUT_MAX
    ensures ParseText(RecordLine(d, c)).Done? && TellsAll(ParseText(RecordLine(d, c)).node, d, c)
  {
    hide RecordLine, ParseText, RecordFields, ObjectNode, TellsAll, CompiledRule, SessionShape, TokenShape;
    LineNode(d, c);
    RecordTellsAll(d, c);
  }
}
