/** Objects with named members: the keys of log and export records, and how such an object is written and looked up. */
module JsonFields {
  import opened Core
  import opened JsonText
  import opened JsonWriter

  datatype Key =
    | SchemaVersion | FirmwareVersion | Hardware | SignaturePack | Region | EventId | SessionId | ObservedAt
    | TimeQuality | UptimeMs | FirstSeenMs | Category | Label | Confidence | Score | RuleIds | Reason | Radio
    | Channel | RssiMin | RssiMax | RssiAvg | SeenCount | Identifier | AddressType | MealAwarded | PrivacyMode
    | RawMac | LastSeenMs | SourcePrivacyMode | Latitude | Longitude | LocationSource

  function Name(k: Key): string {
    match k
    case SchemaVersion => "schema_version"
    case FirmwareVersion => "firmware_version"
    case Hardware => "hardware"
    case SignaturePack => "signature_pack"
    case Region => "region"
    case EventId => "event_id"
    case SessionId => "session_id"
    case ObservedAt => "observed_at"
    case TimeQuality => "time_quality"
    case UptimeMs => "uptime_ms"
    case FirstSeenMs => "first_seen_ms"
    case Category => "category"
    case Label => "label"
    case Confidence => "confidence"
    case Score => "score"
    case RuleIds => "rule_ids"
    case Reason => "reason"
    case Radio => "radio"
    case Channel => "channel"
    case RssiMin => "rssi_min"
    case RssiMax => "rssi_max"
    case RssiAvg => "rssi_avg"
    case SeenCount => "seen_count"
    case Identifier => "identifier"
    case AddressType => "address_type"
    case MealAwarded => "meal_awarded"
    case PrivacyMode => "privacy_mode"
    case RawMac => "raw_mac"
    case LastSeenMs => "last_seen_ms"
    case SourcePrivacyMode => "source_privacy_mode"
    case Latitude => "latitude"
    case Longitude => "longitude"
    case LocationSource => "location_source"
  }

  /** The place of a key in a log record; keys that only exports have come behind. */
  function Ordinal(k: Key): nat {
    match k
    case SchemaVersion => 0
    case FirmwareVersion => 1
    case Hardware => 2
    case SignaturePack => 3
    case Region => 4
    case EventId => 5
    case SessionId => 6
    case ObservedAt => 7
    case TimeQuality => 8
    case UptimeMs => 9
    case FirstSeenMs => 10
    case Category => 11
    case Label => 12
    case Confidence => 13
    case Score => 14
    case RuleIds => 15
    case Reason => 16
    case Radio => 17
    case Channel => 18
    case RssiMin => 19
    case RssiMax => 20
    case RssiAvg => 21
    case SeenCount => 22
    case Identifier => 23
    case AddressType => 24
    case MealAwarded => 25
    case PrivacyMode => 26
    case RawMac => 27
    case LastSeenMs => 28
    case SourcePrivacyMode => 29
    case Latitude => 30
    case Longitude => 31
    case LocationSource => 32
  }

  // ---- The keys are different names ----

  /** A number that tells the keys apart: length, first, third and last character. */
  function Code(name: string): nat
    requires |name| >= 3
  {
    ((|name| * 128 + name[0] as nat) * 128 + name[2] as nat) * 128 + name[|name| - 1] as nat
  }

  function KeyOf(code: nat): Option<Key> {
    if code == 31257710 then Some(SchemaVersion)
    else if code == 35240302 then Some(FirmwareVersion)
    else if code == 18495845 then Some(Hardware)
    else if code == 31257579 then Some(SignaturePack)
    else if code == 14463982 then Some(Region)
    else if code == 18445028 then Some(EventId)
    else if code == 22870500 then Some(SessionId)
    else if code == 24902132 then Some(ObservedAt)
    else if code == 27080441 then Some(TimeQuality)
    else if code == 20806259 then Some(UptimeMs)
    else if code == 28948851 then Some(FirstSeenMs)
    else if code == 18414201 then Some(Category)
    else if code == 12267884 then Some(Label)
    else if code == 22607717 then Some(Confidence)
    else if code == 12384229 then Some(Score)
    else if code == 18658931 then Some(RuleIds)
    else if code == 14463214 then Some(Reason)
    else if code == 12366447 then Some(Radio)
    else if code == 16314604 then Some(Channel)
    else if code == 18659822 then Some(RssiMin)
    else if code == 18659832 then Some(RssiMax)
    else if code == 18659815 then Some(RssiAvg)
    else if code == 22868724 then Some(SeenCount)
    else if code == 22704882 then Some(Identifier)
    else if code == 26767973 then Some(AddressType)
    else if code == 26964196 then Some(MealAwarded)
    else if code == 27014373 then Some(PrivacyMode)
    else if code == 16563171 then Some(RawMac)
    else if code == 26950131 then Some(LastSeenMs)
    else if code == 41745125 then Some(SourcePrivacyMode)
    else if code == 18561637 then Some(Latitude)
    else if code == 20658021 then Some(Longitude)
    else if code == 33239525 then Some(LocationSource)
    else None
  }

  lemma NameCode(k: Key)
    ensures 3 <= |Name(k)| <= KEY_MAX && KeyOf(Code(Name(k))) == Some(k)
  {
    hide Name, KeyOf, Code;
    if Ordinal(k) < 17 {
      NameCode1(k);
    } else {
      NameCode2(k);
    }
  }

  lemma NameCode1(k: Key)
    requires Ordinal(k) < 17
    ensures 3 <= |Name(k)| <= KEY_MAX && KeyOf(Code(Name(k))) == Some(k)
  {
  }

  lemma NameCode2(k: Key)
    requires Ordinal(k) >= 17
    ensures 3 <= |Name(k)| <= KEY_MAX && KeyOf(Code(Name(k))) == Some(k)
  {
  }

  lemma NamesDiffer(a: Key, b: Key)
    requires Name(a) == Name(b)
    ensures a == b
  {
    NameCode(a);
    NameCode(b);
    hide Name, KeyOf;
  }

  /** Lower-case letters and underscores need no escape. */
  predicate Simple(s: string) {
    forall i | 0 <= i < |s| :: 'a' <= s[i] <= 'z' || s[i] == '_'
  }

  lemma NameSimple(k: Key)
    ensures Simple(Name(k))
  {
    hide Simple;
    if Ordinal(k) < 9 {
      NameSimple1(k);
    } else if Ordinal(k) < 18 {
      NameSimple2(k);
    } else if Ordinal(k) < 27 {
      NameSimple3(k);
    } else {
      NameSimple4(k);
    }
  }

  lemma NameSimple1(k: Key)
    requires Ordinal(k) < 9
    ensures Simple(Name(k))
  {
  }

  lemma NameSimple2(k: Key)
    requires 9 <= Ordinal(k) < 18
    ensures Simple(Name(k))
  {
  }

  lemma NameSimple3(k: Key)
    requires 18 <= Ordinal(k) < 27
    ensures Simple(Name(k))
  {
  }

  lemma NameSimple4(k: Key)
    requires 27 <= Ordinal(k)
    ensures Simple(Name(k))
  {
  }

  // ---- Objects ----

  datatype Field = Field(key: Key, value: Node)

  function StringNode(s: string): Node
  {
    Leaf(String, Quoted(s))
  }

  function NumberNode(n: int): Node {
    Leaf(Number, Decimal(n))
  }

  const NULL: Node := Leaf(Null, "null")

  function Bare(text: Node): Elem {
    Elem("", "", "", "", text, "")
  }

  function BareAll(nodes: seq<Node>): (elems: seq<Elem>)
    ensures |elems| == |nodes| && forall i | 0 <= i < |nodes| :: elems[i] == Bare(nodes[i])
  {
    if nodes == [] then [] else BareAll(nodes[..|nodes| - 1]) + [Bare(nodes[|nodes| - 1])]
  }

  function ListNode(nodes: seq<Node>): Node {
    Tree(false, "", BareAll(nodes))
  }

  lemma NameAscii(k: Key)
    ensures Ascii(Name(k))
  {
    NameSimple(k);
    hide Name;
  }

  function MemberElem(f: Field): Elem {
    Elem("", Quoted(Name(f.key)), "", "", f.value, "")
  }

  function Members(fields: seq<Field>): (elems: seq<Elem>)
    ensures |elems| == |fields| && forall i | 0 <= i < |fields| :: elems[i] == MemberElem(fields[i])
  {
    if fields == [] then [] else Members(fields[..|fields| - 1]) + [MemberElem(fields[|fields| - 1])]
  }

  function ObjectNode(fields: seq<Field>): Node {
    Tree(true, "", Members(fields))
  }

  ghost predicate DistinctFields(fields: seq<Field>) {
    forall i, j | 0 <= i < j < |fields| :: fields[i].key != fields[j].key
  }

  lemma KeyRead(f: Field)
    ensures KeyName(MemberElem(f).key) == Some(Name(f.key)) && IsString(MemberElem(f).key)
  {
    NameAscii(f.key);
    NameCode(f.key);
    QuotedString(Name(f.key));
    hide Name, Quoted, IsString, Decode;
  }

  lemma MembersWellFormed(fields: seq<Field>)
    requires forall f | f in fields :: WellFormed(f.value)
    ensures forall i | 0 <= i < |fields| :: WellFormedElem(true, Members(fields)[i])
  {
    hide WellFormed, IsString, KeyName, Name;
    forall i | 0 <= i < |fields| ensures WellFormedElem(true, Members(fields)[i]) {
      assert fields[i] in fields;
      KeyRead(fields[i]);
    }
  }

  lemma MembersDistinct(fields: seq<Field>)
    requires DistinctFields(fields)
    ensures DistinctKeys(Members(fields))
  {
    hide KeyName, Name, MemberElem;
    var elems := Members(fields);
    forall i | 0 <= i < |elems| ensures KeyName(elems[i].key) == Some(Name(fields[i].key)) {
      KeyRead(fields[i]);
    }
    forall i, j | 0 <= i < j < |elems| ensures KeyName(elems[i].key) != KeyName(elems[j].key) {
      KeyRead(fields[i]);
      KeyRead(fields[j]);
      if Name(fields[i].key) == Name(fields[j].key) {
        NamesDiffer(fields[i].key, fields[j].key);
      }
    }
  }

  lemma ObjectWellFormed(fields: seq<Field>)
    requires fields != [] && DistinctFields(fields) && forall f | f in fields :: WellFormed(f.value)
    ensures WellFormed(ObjectNode(fields))
  {
    MembersWellFormed(fields);
    MembersDistinct(fields);
    hide WellFormedElem, DistinctKeys, Members;
  }

  // ---- Looking a key up ----

  /** The value of the member with this name, as member() finds it. */
  function FindIn(elems: seq<Elem>, name: string): Option<Node> {
    if elems == [] then None
    else if KeyName(elems[0].key) == Some(name) then Some(elems[0].value)
    else FindIn(elems[1..], name)
  }

  lemma {:induction false} FindAt(elems: seq<Elem>, name: string, j: nat)
    requires DistinctKeys(elems) && j < |elems| && KeyName(elems[j].key) == Some(name)
    ensures FindIn(elems, name) == Some(elems[j].value)
  {
    hide KeyName;
    if j > 0 {
      assert KeyName(elems[0].key) != KeyName(elems[j].key);
      FindAt(elems[1..], name, j - 1);
    }
  }

  lemma {:induction false} FindNone(elems: seq<Elem>, name: string)
    requires forall i | 0 <= i < |elems| :: KeyName(elems[i].key) != Some(name)
    ensures FindIn(elems, name) == None
  {
    hide KeyName;
    if elems != [] {
      FindNone(elems[1..], name);
    }
  }

  lemma FieldFound(fields: seq<Field>, j: nat)
    requires DistinctFields(fields) && j < |fields|
    ensures FindIn(Members(fields), Name(fields[j].key)) == Some(fields[j].value)
  {
    hide KeyName, Name, FindIn, DistinctKeys;
    KeyRead(fields[j]);
    MembersDistinct(fields);
    FindAt(Members(fields), Name(fields[j].key), j);
  }

  // ---- Bounds ----

  /** Objects of leaves, but for one member, stay within the reader's token table. */
  lemma {:induction false} ObjectBounds(fields: seq<Field>, j: nat, many: nat)
    requires fields != [] && j < |fields| && forall i | 0 <= i < |fields| && i != j :: fields[i].value.Leaf?
    requires Tokens(fields[j].value) <= many + 1 && Height(fields[j].value) <= 1
    ensures Tokens(ObjectNode(fields)) <= 1 + 2 * |fields| + many && Height(ObjectNode(fields)) <= 2
  {
    hide Name, Quoted;
    MembersBounds(fields, j, many, |fields|);
    assert Members(fields)[..|fields|] == Members(fields);
  }

  lemma {:induction false} MembersBounds(fields: seq<Field>, j: nat, many: nat, n: nat)
    requires n <= |fields| && j < |fields| && forall i | 0 <= i < |fields| && i != j :: fields[i].value.Leaf?
    requires Tokens(fields[j].value) <= many + 1 && Height(fields[j].value) <= 1
    ensures ElemsTokens(true, Members(fields)[..n]) <= 2 * n + (if j < n then many else 0)
    ensures ElemsHeight(Members(fields)[..n]) <= 1
  {
    hide Name, Quoted;
    if n > 0 {
      MembersBounds(fields, j, many, n - 1);
      assert Members(fields)[..n][..n - 1] == Members(fields)[..n - 1];
    }
  }

  lemma ListBounds(nodes: seq<Node>)
    requires nodes != [] && forall n | n in nodes :: n.Leaf? && WellFormed(n)
    ensures WellFormed(ListNode(nodes)) && Tokens(ListNode(nodes)) == 1 + |nodes| && Height(ListNode(nodes)) == 1
  {
    LeavesBounds(nodes, |nodes|);
    assert BareAll(nodes)[..|nodes|] == BareAll(nodes);
    forall i | 0 <= i < |nodes| ensures WellFormedElem(false, BareAll(nodes)[i]) {
      assert nodes[i] in nodes;
    }
  }

  lemma {:induction false} LeavesBounds(nodes: seq<Node>, n: nat)
    requires n <= |nodes| && forall x | x in nodes :: x.Leaf?
    ensures ElemsTokens(false, BareAll(nodes)[..n]) == n && ElemsHeight(BareAll(nodes)[..n]) == 0
  {
    if n > 0 {
      LeavesBounds(nodes, n - 1);
      assert nodes[n - 1] in nodes;
      assert BareAll(nodes)[..n][..n - 1] == BareAll(nodes)[..n - 1];
    }
  }
}
