/** write_record: the bounded writer, driven member by member, against the record's tree. */
module RecordWriter {
  import opened Core
  import opened JsonText
  import opened JsonWriter
  import opened JsonFields
  import opened LogCheck
  import opened LogRecord

  /** The text of an object with these members, its closing brace still to come. */
  ghost function Opened(fields: seq<Field>): string {
    "{" + ElemsText(true, Members(fields))
  }

  lemma {:induction false} SimpleQuoted(s: string)
    requires Simple(s)
    ensures EscapedAll(s) == s
  {
    hide Escaped;
    if s != "" {
      SimpleEscaped(s[0]);
      SimpleQuoted(s[1..]);
      assert s == [s[0]] + s[1..];
    }
  }

  lemma SimpleEscaped(c: char)
    requires 'a' <= c <= 'z' || c == '_'
    ensures Escaped(c) == [c]
  {
  }

  lemma NameQuoted(k: Key)
    ensures Quoted(Name(k)) == "\"" + Name(k) + "\""
  {
    hide Name, EscapedAll, Simple;
    NameSimple(k);
    SimpleQuoted(Name(k));
  }

  lemma OpenedGrows(fields: seq<Field>, f: Field)
    ensures Opened(fields + [f])
         == Opened(fields) + ((if fields == [] then "" else ",") + "\"" + Name(f.key) + "\":") + Text(f.value)
  {
    hide Name, Quoted, Text;
    NameQuoted(f.key);
    var all := fields + [f];
    assert all[..|fields|] == fields;
    assert Members(all) == Members(fields) + [MemberElem(f)];
    assert Members(all)[..|fields|] == Members(fields);
    assert ElemText(true, MemberElem(f)) == ("\"" + Name(f.key) + "\":") + Text(f.value);
  }

  lemma ClosedText(fields: seq<Field>)
    requires fields != []
    ensures Opened(fields) + "}\n" == Text(ObjectNode(fields)) + "\n"
  {
    hide ElemsText, MemberElem;
  }

  // ---- One member ----

  method PutName(w: Writer, ghost fields: seq<Field>, key: Key, first: bool)
    requires w.Valid() && w.total == Opened(fields) && (first <==> fields == [])
    modifies w, w.out
    ensures w.Valid() && w.total == Opened(fields) + ((if fields == [] then "" else ",") + "\"" + Name(key) + "\":")
  {
    w.Text((if first then "" else ",") + "\"" + Name(key) + "\":");
  }

  method PutText(w: Writer, ghost fields: seq<Field>, key: Key, word: string,
      ghost value: Node) returns (ghost more: seq<Field>)
    requires w.Valid() && w.total == Opened(fields) && fields != [] && Text(value) == word
    modifies w, w.out
    ensures w.Valid() && more == fields + [Field(key, value)] && w.total == Opened(more)
  {
    hide Opened, Text, Name;
    PutName(w, fields, key, false);
    w.Text(word);
    more := fields + [Field(key, value)];
    OpenedGrows(fields, Field(key, value));
  }

  method PutString(w: Writer, ghost fields: seq<Field>, key: Key, s: string) returns (ghost more: seq<Field>)
    requires w.Valid() && w.total == Opened(fields) && fields != []
    modifies w, w.out
    ensures w.Valid() && more == fields + [Field(key, StringNode(s))] && w.total == Opened(more)
  {
    hide Opened, Name, Quoted;
    PutName(w, fields, key, false);
    w.String(s);
    more := fields + [Field(key, StringNode(s))];
    OpenedGrows(fields, Field(key, StringNode(s)));
    LeafText(String, Quoted(s));
  }

  method PutNumber(w: Writer, ghost fields: seq<Field>, key: Key, n: int) returns (ghost more: seq<Field>)
    requires w.Valid() && w.total == Opened(fields) && fields != []
    modifies w, w.out
    ensures w.Valid() && more == fields + [Field(key, NumberNode(n))] && w.total == Opened(more)
  {
    hide Opened, Name, Decimal;
    PutName(w, fields, key, false);
    w.Number(n);
    more := fields + [Field(key, NumberNode(n))];
    OpenedGrows(fields, Field(key, NumberNode(n)));
    LeafText(Number, Decimal(n));
  }

  lemma LeafText(kind: Kind, text: string)
    ensures Text(Leaf(kind, text)) == text
  {
  }

  method PutIds(w: Writer, ghost fields: seq<Field>, rules: seq<Rule>) returns (ghost more: seq<Field>)
    requires w.Valid() && w.total == Opened(fields) && fields != [] && rules != []
    modifies w, w.out
    ensures w.Valid() && more == fields + [Field(RuleIds, ListNode(IdNodes(rules)))] && w.total == Opened(more)
  {
    hide Opened, Name, Quoted, Listed, IdNodes, ListNode, Text;
    PutName(w, fields, RuleIds, false);
    ghost var before := w.total;
    w.Text("[");
    IdsNothing(rules);
    for i := 0 to |rules|
      invariant w.Valid() && w.total == before + Listed(rules[..i])
    {
      PutId(w, before, rules, i);
    }
    assert rules[..|rules|] == rules;
    w.Text("]");
    more := fields + [Field(RuleIds, ListNode(IdNodes(rules)))];
    OpenedGrows(fields, Field(RuleIds, ListNode(IdNodes(rules))));
    ListText(rules);
    Regrouped(before, Listed(rules), "]");
  }

  lemma Regrouped(a: string, b: string, c: string)
    ensures a + b + c == a + (b + c)
  {
  }

  /** The list of these rules' ids, its closing bracket still to come. */
  ghost function Listed(rules: seq<Rule>): string {
    "[" + ElemsText(false, BareAll(IdNodes(rules)))
  }

  method PutId(w: Writer, ghost before: string, rules: seq<Rule>, i: nat)
    requires i < |rules| && w.Valid() && w.total == before + Listed(rules[..i])
    modifies w, w.out
    ensures w.Valid() && w.total == before + Listed(rules[..i + 1])
  {
    hide Quoted, Listed;
    IdsGrow(rules, i);
    if i > 0 {
      w.Text(",");
    }
    w.String(rules[i].id);
    Regrouped(before, Listed(rules[..i]), (if i > 0 then "," else "") + Quoted(rules[i].id));
    assert w.total == before + Listed(rules[..i]) + ((if i > 0 then "," else "") + Quoted(rules[i].id));
  }

  lemma IdsNothing(rules: seq<Rule>)
    ensures Listed(rules[..0]) == "["
  {
  }

  lemma BareText(n: Node)
    ensures ElemText(false, Bare(n)) == Text(n)
  {
    hide Text;
    assert ElemBody(false, Bare(n)) == Text(n);
  }

  lemma IdsGrow(rules: seq<Rule>, i: nat)
    requires i < |rules|
    ensures Listed(rules[..i + 1]) == Listed(rules[..i]) + ((if i > 0 then "," else "") + Quoted(rules[i].id))
  {
    hide Quoted, ElemText, Bare;
    var less, more := IdNodes(rules[..i]), IdNodes(rules[..i + 1]);
    assert rules[..i + 1][..i] == rules[..i];
    assert more == less + [StringNode(rules[i].id)] && more[..i] == less;
    assert BareAll(more)[..i] == BareAll(less);
    BareText(StringNode(rules[i].id));
    LeafText(String, Quoted(rules[i].id));
  }

  lemma ListText(rules: seq<Rule>)
    requires rules != []
    ensures Text(ListNode(IdNodes(rules))) == Listed(rules) + "]"
  {
    hide ElemsText;
  }

  // ---- The record, part by part ----

  method PutOrigin(w: Writer, d: Detection, c: Context) returns (ghost f: seq<Field>)
    requires w.Valid() && w.total == ""
    modifies w, w.out
    ensures w.Valid() && f == OriginFields(d, c) && w.total == Opened(f)
  {
    hide Opened, Text, StringNode, NumberNode, EventName, Name;
    OpenedNothing();
    w.Text("{");
    PutName(w, [], SchemaVersion, true);
    w.Text("1");
    f := [Field(SchemaVersion, NumberNode(1))];
    OneText();
    OpenedGrows([], Field(SchemaVersion, NumberNode(1)));
    f := PutString(w, f, FirmwareVersion, FIRMWARE);
    f := PutString(w, f, Hardware, HARDWARE);
    f := PutString(w, f, SignaturePack, PACK);
    f := PutString(w, f, Region, if c.region == 0 then "US" else "EU");
    f := PutString(w, f, EventId, EventName(d, c.session));
    f := PutString(w, f, SessionId, c.session);
  }

  lemma OpenedNothing()
    ensures Opened([]) == "{"
  {
  }

  lemma OneText()
    ensures Text(NumberNode(1)) == "1" && [] + [Field(SchemaVersion, NumberNode(1))]
        == [Field(SchemaVersion, NumberNode(1))]
  {
    assert Natural(1) == "" + "1";
  }

  method PutTime(w: Writer, ghost past: seq<Field>, d: Detection) returns (ghost f: seq<Field>)
    requires w.Valid() && w.total == Opened(past) && past != []
    modifies w, w.out
    ensures w.Valid() && f == past + TimeFields(d) && w.total == Opened(f)
  {
    hide Opened, Text, StringNode, NumberNode, Name, Calendar.FormatUtc;
    var utc := Calendar.FormatUtc(d.unixSeconds);
    if utc != "" {
      f := PutString(w, past, ObservedAt, utc);
    } else {
      NullText();
      f := PutText(w, past, ObservedAt, "null", NULL);
    }
    f := PutString(w, f, TimeQuality, if utc != "" then MANUAL else UPTIME_ONLY);
    f := PutNumber(w, f, UptimeMs, d.lastMs);
    f := PutNumber(w, f, FirstSeenMs, d.firstMs);
  }

  lemma NullText()
    ensures Text(NULL) == "null"
  {
  }

  method PutClue(w: Writer, ghost past: seq<Field>, d: Detection, c: Context) returns (ghost f: seq<Field>)
    requires w.Valid() && w.total == Opened(past) && past != [] && Writable(d)
    modifies w, w.out
    ensures w.Valid() && f == past + ClueFields(d, c) && w.total == Opened(f)
  {
    hide Opened, Text, StringNode, NumberNode, ListNode, IdNodes, Name, GradeName;
    f := PutString(w, past, Category, CATEGORIES[d.category]);
    f := PutString(w, f, Label, d.rules[0].title);
    f := PutString(w, f, Confidence, GradeName(d.score));
    f := PutNumber(w, f, Score, d.score);
    f := PutIds(w, f, d.rules);
    f := PutString(w, f, Reason, d.rules[0].reason);
  }

  method PutSignal(w: Writer, ghost past: seq<Field>, d: Detection) returns (ghost f: seq<Field>)
    requires w.Valid() && w.total == Opened(past) && past != [] && Writable(d)
    modifies w, w.out
    ensures w.Valid() && f == past + SignalFields(d) && w.total == Opened(f)
  {
    hide Opened, Text, StringNode, NumberNode, Name, Quotient;
    f := PutString(w, past, Key.Radio, if d.radio == Wifi then "wifi" else "ble");
    f := PutNumber(w, f, Channel, d.channel);
    f := PutNumber(w, f, RssiMin, d.rssiMin);
    f := PutNumber(w, f, RssiMax, d.rssiMax);
    f := PutNumber(w, f, RssiAvg, Quotient(d.rssiSum, d.seenCount));
    f := PutNumber(w, f, SeenCount, d.seenCount);
  }

  method PutPrivacy(w: Writer, ghost past: seq<Field>, d: Detection, c: Context) returns (ghost f: seq<Field>)
    requires w.Valid() && w.total == Opened(past) && past != [] && Octets(d.address)
    modifies w, w.out
    ensures w.Valid() && f == past + PrivacyFields(d, c) && w.total == Opened(f)
  {
    hide Opened, Text, StringNode, Name, Mac;
    f := PutString(w, past, Identifier, c.token);
    f := PutString(w, f, AddressType, if d.addressType != 0 then "random" else "public");
    BoolText(d.meal);
    f := PutText(w, f, MealAwarded, if d.meal then "true" else "false", BoolNode(d.meal));
    f := PutString(w, f, PrivacyMode, if c.research then RESEARCH_NAME else PRIVATE_NAME);
    if c.research {
      f := PutString(w, f, RawMac, Mac(d.address));
    }
  }

  lemma BoolText(b: bool)
    ensures Text(BoolNode(b)) == if b then "true" else "false"
  {
  }

  /** The whole line of a record. */
  ghost function RecordLine(d: Detection, c: Context): string
    requires Writable(d) && Octets(d.address)
  {
    Text(ObjectNode(RecordFields(d, c))) + "\n"
  }

  method PutRecord(w: Writer, d: Detection, c: Context)
    requires w.Valid() && w.total == "" && Writable(d) && Octets(d.address)
    modifies w, w.out
    ensures w.Valid() && w.total == RecordLine(d, c)
  {
    hide Opened, OriginFields, TimeFields, ClueFields, SignalFields, PrivacyFields, Text, ObjectNode, Members;
    ghost var f := PutOrigin(w, d, c);
    f := PutTime(w, f, d);
    f := PutClue(w, f, d, c);
    f := PutSignal(w, f, d);
    f := PutPrivacy(w, f, d, c);
    w.Text("}\n");
    ClosedText(f);
  }

  /** All of the record's line or nothing. */
  method WriteRecord(d: Detection, c: Context, output: array<char>) returns (n: nat)
    requires Octets(d.address)
    modifies output
    ensures n > 0 <==> Writable(d) && |RecordLine(d, c)| < output.Length
    ensures n > 0 ==> n < output.Length && output[..n] == RecordLine(d, c)
  {
    hide RecordLine, Opened, RecordFields, Text;
    if output.Length == 0 || d.demo || |d.rules| == 0 || |d.rules| > 4 || d.category >= CATEGORY_COUNT
        || d.seenCount == 0 {
      return 0;
    }
    var w := new Writer(output);
    PutRecord(w, d, c);
    LineNotEmpty(d, c);
    n := w.Size();
  }

  lemma LineNotEmpty(d: Detection, c: Context)
    requires Writable(d) && Octets(d.address)
    ensures RecordLine(d, c) != ""
  {
    hide Text;
  }
}
