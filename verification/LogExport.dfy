/**
 * export_log_record: a valid record rewritten for others. It has new identifiers and a fixed set of fields; those that
 * are copied have the source's values, and no other field of the source gets through. The digest that names a device
 * is an input.
 */
module LogExport {
  import opened Core
  import opened JsonText
  import opened JsonParser
  import opened JsonExact
  import opened JsonTokens
  import opened JsonReader
  import opened JsonWriter
  import opened JsonFields
  import opened LogCheck
  import opened LogReader
  import RecordWriter

  /** The fields that are copied, in order; the session is replaced. */
  const COPIED: seq<Key> := [
    SchemaVersion, FirmwareVersion, Hardware, SignaturePack, SessionId, Category, RuleIds, FirstSeenMs, SeenCount,
        Score,
    Confidence, RssiMin, RssiMax, Channel, Key.Radio, Region, TimeQuality, ObservedAt]

  const SANITIZED: string := "sanitized"
  const NOWHERE: string := "none"

  /** The place of a key in an export record; keys that an export never has come behind. */
  function Place(k: Key): nat {
    match k
    case SchemaVersion => 0
    case FirmwareVersion => 1
    case Hardware => 2
    case SignaturePack => 3
    case SessionId => 4
    case Category => 5
    case RuleIds => 6
    case FirstSeenMs => 7
    case SeenCount => 8
    case Score => 9
    case Confidence => 10
    case RssiMin => 11
    case RssiMax => 12
    case Channel => 13
    case Radio => 14
    case Region => 15
    case TimeQuality => 16
    case ObservedAt => 17
    case Identifier => 18
    case LastSeenMs => 19
    case SourcePrivacyMode => 20
    case PrivacyMode => 21
    case Latitude => 22
    case Longitude => 23
    case LocationSource => 24
    case _ => 25
  }

  const EXPORT_FIELDS: nat := 25

  /** The value of a field of the source; a valid record has all that are asked for. */
  function SourceValue(n: Node, key: Key): Node {
    MemberOf(n, key).GetOr(NULL)
  }

  function CopiedField(n: Node, session: string, key: Key): Field {
    Field(key, if key == SessionId then StringNode(session) else SourceValue(n, key))
  }

  function CopiedFields(n: Node, session: string, keys: seq<Key>): (f: seq<Field>)
    ensures |f| == |keys| && forall i | 0 <= i < |keys| :: f[i] == CopiedField(n, session, keys[i])
  {
    if keys == [] then []
    else CopiedFields(n, session, keys[..|keys| - 1]) + [CopiedField(n, session, keys[|keys| - 1])]
  }

  function AddedFields(n: Node, id: string): (f: seq<Field>)
    ensures |f| == 7
  {
    [Field(Identifier, StringNode(id)),
     Field(LastSeenMs, SourceValue(n, UptimeMs)),
     Field(SourcePrivacyMode, SourceValue(n, PrivacyMode)),
     Field(PrivacyMode, StringNode(SANITIZED)),
     Field(Latitude, NULL),
     Field(Longitude, NULL),
     Field(LocationSource, StringNode(NOWHERE))]
  }

  function ExportFields(n: Node, session: string, id: string): (f: seq<Field>)
    ensures |f| == EXPORT_FIELDS
  {
    CopiedFields(n, session, COPIED) + AddedFields(n, id)
  }

  // ---- The fields are the fixed set ----

  lemma CopiedPlaces(i: nat)
    requires i < |COPIED|
    ensures Place(COPIED[i]) == i
  {
  }

  lemma AddedPlaces(n: Node, id: string, i: nat)
    requires i < 7
    ensures Place(AddedFields(n, id)[i].key) == 18 + i
  {
    hide StringNode, SourceValue;
  }

  /** Every export has the same 25 fields, each once, and no others. */
  lemma ExportKeys(n: Node, session: string, id: string)
    ensures forall i | 0 <= i < EXPORT_FIELDS :: Place(ExportFields(n, session, id)[i].key) == i
    ensures DistinctFields(ExportFields(n, session, id))
  {
    hide Place, AddedFields, CopiedFields;
    var f := ExportFields(n, session, id);
    forall i | 0 <= i < EXPORT_FIELDS ensures Place(f[i].key) == i {
      if i < |COPIED| {
        assert f[i] == CopiedField(n, session, COPIED[i]);
        CopiedPlaces(i);
      } else {
        assert f[i] == AddedFields(n, id)[i - 18];
        AddedPlaces(n, id, i - 18);
      }
    }
  }

  // ---- What is copied is a leaf, or the list of rule ids ----

  ghost predicate GoodLeaf(n: Node) {
    n.Leaf? && WellFormed(n)
  }

  lemma MemberWellFormed(n: Node, key: Key)
    requires WellFormed(n) && MemberOf(n, key).Some?
    ensures WellFormed(MemberOf(n, key).value)
  {
    hide Name, KeyName, WellFormed;
    FoundWellFormed(n, Name(key));
  }

  lemma FoundWellFormed(n: Node, name: string)
    requires WellFormed(n) && n.Tree? && n.obj && FindIn(n.elems, name).Some?
    ensures WellFormed(FindIn(n.elems, name).value)
  {
    var j := FoundIn(n.elems, name);
    hide FindIn;
    assert WellFormedElem(n.obj, n.elems[j]);
  }

  lemma {:induction false} FoundIn(elems: seq<Elem>, name: string) returns (j: nat)
    requires FindIn(elems, name).Some?
    ensures j < |elems| && elems[j].value == FindIn(elems, name).value
  {
    hide KeyName;
    if KeyName(elems[0].key) == Some(name) {
      j := 0;
    } else {
      j := FoundIn(elems[1..], name);
      j := j + 1;
    }
  }

  lemma StringSource(n: Node, key: Key)
    requires WellFormed(n) && Str(n, key).Some?
    ensures GoodLeaf(SourceValue(n, key))
  {
    hide MemberOf, Readable, WellFormed;
    MemberWellFormed(n, key);
  }

  lemma NumberSource(n: Node, key: Key)
    requires WellFormed(n) && Int(n, key).Some?
    ensures GoodLeaf(SourceValue(n, key))
  {
    hide MemberOf, IntegerOf, WellFormed;
    MemberWellFormed(n, key);
  }

  lemma TimeSource(n: Node)
    requires WellFormed(n) && Timed(n)
    ensures GoodLeaf(SourceValue(n, ObservedAt))
  {
    hide MemberOf, Str, Readable;
    MemberWellFormed(n, ObservedAt);
    var m := MemberOf(n, ObservedAt).value;
    if m.Tree? {
      assert Text(m)[0] == Open(m.obj);
    }
  }

  lemma RulesSource(n: Node)
    requires WellFormed(n) && Ruled(n)
    ensures var m := SourceValue(n, RuleIds); m.Tree? && WellFormed(m) && Tokens(m) <= 5 && Height(m) <= 1
  {
    hide MemberOf, IdNode;
    MemberWellFormed(n, RuleIds);
    var m := MemberOf(n, RuleIds).value;
    IdsAreLeaves(m.elems);
    LeavesTokens(m.elems);
    LeavesHeight(m.elems);
  }

  lemma {:induction false} LeavesHeight(elems: seq<Elem>)
    requires forall i | 0 <= i < |elems| :: elems[i].value.Leaf?
    ensures ElemsHeight(elems) == 0
  {
    if elems != [] {
      LeavesHeight(elems[..|elems| - 1]);
    }
  }

  const RULES_AT: nat := 6

  lemma CopiedGood(n: Node, session: string, i: nat)
    requires WellFormed(n) && ValidRecord(n) && i < |COPIED| && i != RULES_AT
    ensures GoodLeaf(CopiedField(n, session, COPIED[i]).value)
  {
    hide GoodLeaf, SourceValue, WellFormed, Str, Int, Ruled, Fed, StringNode, SessionShape, TokenShape,
        Calendar.StampShape;
    StringGood(session);
    TimeSource(n);
    if COPIED[i] in [SchemaVersion, FirstSeenMs, SeenCount, Score, RssiMin, RssiMax, Channel] {
      NumberSource(n, COPIED[i]);
    } else if COPIED[i] != SessionId && COPIED[i] != ObservedAt {
      assert COPIED[i] in TEXT_KEYS || COPIED[i] in [Category, Confidence, Key.Radio, Region, TimeQuality];
      StringSource(n, COPIED[i]);
    }
  }

  lemma StringGood(s: string)
    ensures GoodLeaf(StringNode(s))
  {
    hide Quoted, IsString, Decode;
    QuotedString(s);
  }

  lemma AddedGood(n: Node, id: string)
    requires WellFormed(n) && ValidRecord(n)
    ensures forall i | 0 <= i < 7 :: GoodLeaf(AddedFields(n, id)[i].value)
  {
    hide GoodLeaf, SourceValue, WellFormed, Str, Int, Ruled, Fed, StringNode, SessionShape, TokenShape, Timed;
    StringGood(id);
    StringGood(SANITIZED);
    StringGood(NOWHERE);
    NullGood();
    NumberSource(n, UptimeMs);
    StringSource(n, PrivacyMode);
  }

  lemma NullGood()
    ensures GoodLeaf(NULL)
  {
  }

  lemma ExportGood(n: Node, session: string, id: string, i: nat)
    requires WellFormed(n) && ValidRecord(n) && i < EXPORT_FIELDS
    ensures var v := ExportFields(n, session, id)[i].value;
            if i == RULES_AT then v == SourceValue(n, RuleIds) else GoodLeaf(v)
  {
    hide GoodLeaf, SourceValue, WellFormed, ValidRecord, AddedFields, CopiedFields, StringNode;
    var f := ExportFields(n, session, id);
    if i < |COPIED| {
      assert f[i] == CopiedField(n, session, COPIED[i]);
      if i != RULES_AT {
        CopiedGood(n, session, i);
      }
    } else {
      assert f[i] == AddedFields(n, id)[i - 18];
      AddedGood(n, id);
    }
  }

  lemma ExportFits(n: Node, session: string, id: string)
    requires WellFormed(n) && ValidRecord(n)
    ensures var x := ObjectNode(ExportFields(n, session, id)); WellFormed(x) && Fits(x, 0, 0)
  {
    hide SourceValue, WellFormed, ValidRecord, ExportFields, Tokens, Height, Members;
    var f := ExportFields(n, session, id);
    RuledRecord(n);
    RulesSource(n);
    ExportKeys(n, session, id);
    forall i: nat | i < |f| ensures WellFormed(f[i].value) && (i != RULES_AT ==> f[i].value.Leaf?) {
      ExportGood(n, session, id, i);
    }
    ExportGood(n, session, id, RULES_AT);
    forall x | x in f ensures WellFormed(x.value) {
      var i :| 0 <= i < |f| && f[i] == x;
    }
    ObjectWellFormed(f);
    ObjectBounds(f, RULES_AT, 4);
  }

  lemma RuledRecord(n: Node)
    requires ValidRecord(n)
    ensures Ruled(n)
  {
    hide Ruled;
  }

  // ---- What a reader of the export finds ----

  ghost function ExportLine(n: Node, session: string, id: string): string {
    Text(ObjectNode(ExportFields(n, session, id))) + "\n"
  }

  /** An export line is JSON for the same reader. */
  lemma ExportParses(n: Node, session: string, id: string)
    requires WellFormed(n) && ValidRecord(n) && |ExportLine(n, session, id)| <= INPUT_MAX
    ensures var r := ParseText(ExportLine(n, session, id));
            r.Done? && r.node == ObjectNode(ExportFields(n, session, id))
  {
    hide ExportFields, ValidRecord, WellFormed, Fits, ParseText, Text, ObjectNode;
    ExportFits(n, session, id);
    var x := ObjectNode(ExportFields(n, session, id));
    assert Blank("\n") && Blank("");
    assert ExportLine(n, session, id) == "" + Text(x) + "\n";
    ReadsIsParsed(ExportLine(n, session, id), "", x, "\n");
  }

  lemma FieldMember(fields: seq<Field>, i: nat)
    requires DistinctFields(fields) && i < |fields|
    ensures MemberOf(ObjectNode(fields), fields[i].key) == Some(fields[i].value)
  {
    hide Name, FindIn, Members;
    FieldFound(fields, i);
  }

  /** Every copied field has the source's value, and the renamed ones theirs. */
  lemma ExportCopies(n: Node, session: string, id: string)
    ensures var x := ObjectNode(ExportFields(n, session, id));
            && (forall k | k in COPIED && k != SessionId :: MemberOf(x, k) == Some(SourceValue(n, k)))
            && MemberOf(x, SessionId) == Some(StringNode(session)) && MemberOf(x, Identifier) == Some(StringNode(id))
            && MemberOf(x, LastSeenMs) == Some(SourceValue(n, UptimeMs))
            && MemberOf(x, SourcePrivacyMode) == Some(SourceValue(n, PrivacyMode))
            && MemberOf(x, PrivacyMode) == Some(StringNode(SANITIZED))
                && MemberOf(x, LocationSource) == Some(StringNode(NOWHERE))
            && MemberOf(x, Latitude) == MemberOf(x, Longitude) == Some(NULL)
  {
    hide MemberOf, SourceValue, StringNode, DistinctFields, ObjectNode, CopiedFields, AddedFields, Place;
    var f := ExportFields(n, session, id);
    ExportKeys(n, session, id);
    forall k | k in COPIED ensures MemberOf(ObjectNode(f), k) == Some(CopiedField(n, session, k).value) {
      var i :| 0 <= i < |COPIED| && COPIED[i] == k;
      assert f[i] == CopiedField(n, session, k);
      FieldMember(f, i);
    }
    forall i: nat | i < 7 ensures MemberOf(ObjectNode(f), AddedFields(n, id)[i].key)
        == Some(AddedFields(n, id)[i].value) {
      assert f[18 + i] == AddedFields(n, id)[i];
      FieldMember(f, 18 + i);
    }
    AddedAre(n, id);
    assert SessionId in COPIED;
  }

  lemma AddedAre(n: Node, id: string)
    ensures var a := AddedFields(n, id);
            && a[0] == Field(Identifier, StringNode(id)) && a[1] == Field(LastSeenMs, SourceValue(n, UptimeMs))
            && a[2] == Field(SourcePrivacyMode, SourceValue(n, PrivacyMode))
                && a[3] == Field(PrivacyMode, StringNode(SANITIZED))
            && a[4] == Field(Latitude, NULL) && a[5] == Field(Longitude, NULL)
                && a[6] == Field(LocationSource, StringNode(NOWHERE))
  {
    hide SourceValue, StringNode;
  }

  /** No other field of the source appears: whatever name an export line answers to is one of the fixed 25. */
  lemma ExportOnly(n: Node, session: string, id: string, name: string)
    requires FindIn(Members(ExportFields(n, session, id)), name).Some?
    ensures exists k :: Place(k) < EXPORT_FIELDS && Name(k) == name
  {
    hide Place, ExportFields, Name, KeyName, FindIn;
    var f := ExportFields(n, session, id);
    ExportKeys(n, session, id);
    var j := NamedIn(Members(f), name);
    JsonFields.KeyRead(f[j]);
    assert Place(f[j].key) < EXPORT_FIELDS && Name(f[j].key) == name;
  }

  lemma {:induction false} NamedIn(elems: seq<Elem>, name: string) returns (j: nat)
    requires FindIn(elems, name).Some?
    ensures j < |elems| && KeyName(elems[j].key) == Some(name)
  {
    hide KeyName;
    if KeyName(elems[0].key) == Some(name) {
      j := 0;
    } else {
      j := NamedIn(elems[1..], name);
      j := j + 1;
    }
  }

  // ---- New identifiers ----

  const ALPHABET: string := "ABCDEFGHIJKLMNOPQRSTUVWXYZ234567"
  const TOKEN_SIZE: nat := 20
  const DIGEST_SIZE: nat := 32
  const WORD: nat := 0x1_0000_0000

  type Digest = d: seq<nat> | |d| == DIGEST_SIZE && forall i | 0 <= i < |d| :: d[i] < 256 witness Repeat(0, DIGEST_SIZE)

  /** The digest's first n bytes as one number, the first byte highest. */
  function Big(digest: seq<nat>, n: nat): nat
    requires n <= |digest|
  {
    if n == 0 then 0 else Big(digest, n - 1) * 256 + digest[n - 1]
  }

  /** How many bytes the first k + 1 groups of five bits reach into. */
  function BytesFor(k: nat): nat {
    (5 * k + 12) / 8
  }

  const POWERS: seq<nat> := [1, 2, 4, 8, 16, 32, 64, 128]

  /** Group k of five bits. */
  function Group(digest: Digest, k: nat): (g: nat)
    requires k < TOKEN_SIZE
    ensures g < 32
  {
    Big(digest, BytesFor(k)) / POWERS[8 * BytesFor(k) - 5 * (k + 1)] % 32
  }

  function TokenOfDigest(digest: Digest, n: nat): (t: string)
    requires n <= TOKEN_SIZE
    ensures |t| == n
  {
    if n == 0 then "" else TokenOfDigest(digest, n - 1) + [ALPHABET[Group(digest, n - 1)]]
  }

  lemma DivideUnique(n: nat, c: nat, k: nat, rest: nat)
    requires c > 0 && n == c * k + rest && rest < c
    ensures n / c == k && n % c == rest
  {
    var x := n / c - k;
    assert c * x == rest - n % c by {
      assert n == c * (n / c) + n % c;
      assert c * x == c * (n / c) - c * k;
    }
    assert x > 0 ==> c * x >= c;
    assert x < 0 ==> c * x <= 0 - c;
  }

  lemma DivideSum(c: nat, k: nat, r: nat)
    requires c > 0
    ensures (c * k + r) / c == k + r / c && (c * k + r) % c == r % c
  {
    assert r == c * (r / c) + r % c;
    assert c * (k + r / c) == c * k + c * (r / c);
    DivideUnique(c * k + r, c, k + r / c, r % c);
  }

  /** Dividing away fewer than eight bits, a 32-bit register keeps the five above them. */
  lemma Cut(v: nat, c: nat)
    requires c in POWERS
    ensures v % WORD / c % 32 == v / c % 32
  {
    var q, r := v / WORD, v % WORD;
    var m := WORD / (c * 32);
    assert WORD == c * 32 * m;
    assert v == c * (32 * (m * q)) + r by {
      assert WORD * q == c * 32 * m * q == c * (32 * (m * q));
    }
    DivideSum(c, 32 * (m * q), r);
    DivideSum(32, m * q, r / c);
  }

  lemma GroupIs(digest: Digest, i: nat, k: nat, bits: nat)
    requires i <= DIGEST_SIZE && k < TOKEN_SIZE && bits < 8 && bits == 8 * i - 5 * (k + 1)
    ensures Big(digest, i) % WORD / POWERS[bits] % 32 == Group(digest, k)
  {
    hide Big;
    assert BytesFor(k) == i;
    Cut(Big(digest, i), POWERS[bits]);
  }

  /** Takes the groups of five that are complete after i bytes. */
  method TakeGroups(digest: Digest, i: nat, value: nat, before: string) returns (id: string)
    requires i <= DIGEST_SIZE && value == Big(digest, i) % WORD && |before| <= TOKEN_SIZE
    requires 0 <= 8 * i - 5 * |before| < 13 && before == TokenOfDigest(digest, |before|)
    ensures |id| <= TOKEN_SIZE && id == TokenOfDigest(digest, |id|) && (|id| < TOKEN_SIZE ==> 0 <= 8 * i - 5 * |id| < 5)
  {
    hide Group, Big;
    id := before;
    var bits := 8 * i - 5 * |before|;
    while bits >= 5 && |id| < TOKEN_SIZE
      invariant |id| <= TOKEN_SIZE && bits == 8 * i - 5 * |id| && 0 <= bits < 13
      invariant id == TokenOfDigest(digest, |id|)
    {
      bits := bits - 5;
      GroupIs(digest, i, |id|, bits);
      id := id + [ALPHABET[value / POWERS[bits] % 32]];
    }
  }

  /** The loop over the digest: eight bits in, five bits out, in a 32-bit register. */
  method Encode(digest: Digest) returns (id: string)
    ensures id == TokenOfDigest(digest, TOKEN_SIZE) && TokenShape(id)
  {
    hide Group, Big;
    var value, i := 0, 0;
    id := "";
    BigNothing(digest);
    while i < DIGEST_SIZE && |id| < TOKEN_SIZE
      invariant 0 <= i <= DIGEST_SIZE && |id| <= TOKEN_SIZE && (|id| < TOKEN_SIZE ==> 0 <= 8 * i - 5 * |id| < 5)
      invariant value == Big(digest, i) % WORD && id == TokenOfDigest(digest, |id|)
    {
      BigStep(digest, i);
      value := (value * 256 + digest[i]) % WORD;
      i := i + 1;
      id := TakeGroups(digest, i, value, id);
    }
    AlphabetShape(digest, TOKEN_SIZE);
  }

  lemma BigNothing(digest: seq<nat>)
    ensures Big(digest, 0) == 0
  {
  }

  lemma BigStep(digest: seq<nat>, i: nat)
    requires i < |digest|
    ensures Big(digest, i + 1) % WORD == (Big(digest, i) % WORD * 256 + digest[i]) % WORD
  {
    var v := Big(digest, i);
    assert v * 256 + digest[i] == WORD * (v / WORD * 256) + (v % WORD * 256 + digest[i]);
    DivideSum(WORD, v / WORD * 256, v % WORD * 256 + digest[i]);
  }

  lemma {:induction false} AlphabetShape(digest: Digest, n: nat)
    requires n <= TOKEN_SIZE
    ensures forall i | 0 <= i < n :: Base32(TokenOfDigest(digest, n)[i])
  {
    hide Group;
    if n > 0 {
      AlphabetShape(digest, n - 1);
      LetterShape(Group(digest, n - 1));
    }
  }

  lemma LetterShape(g: nat)
    requires g < 32
    ensures Base32(ALPHABET[g])
  {
  }

  /** Two lower-case hexadecimal digits for each of the first n bytes. */
  function HexOf(digest: Digest, n: nat): (t: string)
    requires n <= DIGEST_SIZE
    ensures |t| == 2 * n && forall i | 0 <= i < |t| :: LowerHex(t[i])
  {
    if n == 0 then "" else HexOf(digest, n - 1) + [HexDigit(digest[n - 1] / 16), HexDigit(digest[n - 1] % 16)]
  }

  /** Keyed digests; None: the computation failed. */
  type Hmac = string -> Option<Digest>

  /** The identifiers that stand for those of the record in this export. */
  function Rekeyed(n: Node, hmac: Hmac): Option<(string, string)> {
    var session, token := Str(n, SessionId).GetOr(""), Str(n, Identifier).GetOr("");
    var identity, whole := hmac(session + ":" + token), hmac(session);
    if identity.None? || whole.None? then None
    else Some((HexOf(whole.value, 16), TokenOfDigest(identity.value, TOKEN_SIZE)))
  }

  // ---- The exporter ----

  method PutKey(w: Writer, ghost fields: seq<Field>, key: Key, comma: bool)
    requires w.Valid() && w.total == RecordWriter.Opened(fields) && (comma <==> fields != [])
    modifies w, w.out
    ensures w.Valid()
    ensures w.total == RecordWriter.Opened(fields) + ((if fields == [] then "" else ",") + "\"" + Name(key) + "\":")
  {
    hide Name, Quoted, RecordWriter.Opened;
    if comma {
      w.Text(",");
    }
    w.String(Name(key));
    w.Text(":");
    KeyText(RecordWriter.Opened(fields), if comma then "," else "", key);
  }

  lemma KeyText(a: string, b: string, key: Key)
    ensures a + b + Quoted(Name(key)) + ":" == a + (b + "\"" + Name(key) + "\":")
    ensures a + "" + Quoted(Name(key)) + ":" == a + Quoted(Name(key)) + ":"
  {
    hide Name, Quoted;
    RecordWriter.NameQuoted(key);
    assert b + ("\"" + Name(key) + "\"") + ":" == b + "\"" + Name(key) + "\":";
    assert a + b + Quoted(Name(key)) + ":" == a + (b + Quoted(Name(key)) + ":");
  }

  /** A member whose value is copied as it stands in the source. */
  method PutRaw(w: Writer, r: Reader, ghost fields: seq<Field>, key: Key, source: Key, comma: bool, ghost n: Node,
      ghost start: nat)
      returns (ghost more: seq<Field>)
    requires w.Valid() && w.total == RecordWriter.Opened(fields) && (comma <==> fields != [])
        && w.out as object != r.tokens as object
    requires Holding(r, n, start) && MemberOf(n, source).Some?
    modifies w, w.out
    ensures w.Valid() && more == fields + [Field(key, SourceValue(n, source))] && w.total == RecordWriter.Opened(more)
  {
    hide Name, RecordWriter.Opened, Describes, MemberOf, Text;
    PutKey(w, fields, key, comma);
    ghost var at;
    var v;
    v, at := Lookup(r, source, n, start);
    TokenOf(r.input, r.tokens[..r.count], MemberOf(n, source).value, at, v);
    w.Text(r.Raw(v));
    more := fields + [Field(key, SourceValue(n, source))];
    RecordWriter.OpenedGrows(fields, Field(key, SourceValue(n, source)));
  }

  method PutNew(w: Writer, ghost fields: seq<Field>, key: Key, s: string, comma: bool) returns (ghost more: seq<Field>)
    requires w.Valid() && w.total == RecordWriter.Opened(fields) && (comma <==> fields != [])
    modifies w, w.out
    ensures w.Valid() && more == fields + [Field(key, StringNode(s))] && w.total == RecordWriter.Opened(more)
  {
    hide Name, RecordWriter.Opened, Quoted;
    PutKey(w, fields, key, comma);
    w.String(s);
    more := fields + [Field(key, StringNode(s))];
    RecordWriter.OpenedGrows(fields, Field(key, StringNode(s)));
    RecordWriter.LeafText(String, Quoted(s));
  }

  lemma ReadPresent(n: Node, key: Key)
    ensures Str(n, key).Some? || Int(n, key).Some? ==> MemberOf(n, key).Some?
    ensures key == ObservedAt && Timed(n) ==> MemberOf(n, key).Some?
    ensures key == RuleIds && Ruled(n) ==> MemberOf(n, key).Some?
  {
    hide MemberOf, Readable, IntegerOf, Calendar.StampShape;
  }

  const CHOICE_KEYS: seq<Key> := [Category, Confidence, Key.Radio, Region, TimeQuality]
  const NUMBER_KEYS: seq<Key> := [SchemaVersion, FirstSeenMs, SeenCount, Score, RssiMin, RssiMax, Channel]

  lemma CopiedKinds(i: nat)
    requires i < |COPIED|
    ensures COPIED[i] in TEXT_KEYS || COPIED[i] in CHOICE_KEYS || COPIED[i] in NUMBER_KEYS
        || COPIED[i] in [ObservedAt, RuleIds]
  {
  }

  lemma StrPresent(n: Node, key: Key)
    requires ValidRecord(n) && (key in TEXT_KEYS || key in CHOICE_KEYS)
    ensures Str(n, key).Some?
  {
    hide MemberOf, SessionShape, TokenShape, Timed, Ruled, Fed, Str, Int;
  }

  lemma IntPresent(n: Node, key: Key)
    requires ValidRecord(n) && key in NUMBER_KEYS
    ensures Int(n, key).Some?
  {
    hide MemberOf, SessionShape, TokenShape, Timed, Ruled, Fed, Str, Int;
  }

  lemma CopiedPresent(n: Node, i: nat)
    requires ValidRecord(n) && i < |COPIED|
    ensures MemberOf(n, COPIED[i]).Some?
  {
    hide *;
    CopiedKinds(i);
    ReadPresent(n, COPIED[i]);
    ListsPresent(n);
    if COPIED[i] in NUMBER_KEYS {
      IntPresent(n, COPIED[i]);
    } else if COPIED[i] in TEXT_KEYS || COPIED[i] in CHOICE_KEYS {
      StrPresent(n, COPIED[i]);
    }
  }

  lemma ListsPresent(n: Node)
    requires ValidRecord(n)
    ensures Timed(n) && Ruled(n)
  {
    hide Timed, Ruled;
  }

  lemma AddedPresent(n: Node)
    requires ValidRecord(n)
    ensures MemberOf(n, UptimeMs).Some? && MemberOf(n, PrivacyMode).Some?
    ensures Str(n, SessionId).Some? && Str(n, Identifier).Some?
  {
    hide MemberOf, SessionShape, TokenShape, Timed, Ruled, Fed, Str, Int, TextsPresent;
    ReadPresent(n, UptimeMs);
    ReadPresent(n, PrivacyMode);
  }

  lemma CopyNext(n: Node, session: string, i: nat)
    requires i < |COPIED|
    ensures CopiedFields(n, session, COPIED[..i + 1]) == CopiedFields(n, session, COPIED[..i])
        + [CopiedField(n, session, COPIED[i])]
    ensures CopiedFields(n, session, COPIED[..0]) == [] && COPIED[..|COPIED|] == COPIED
  {
    assert COPIED[..i + 1][..i] == COPIED[..i];
  }

  method PutCopied(w: Writer, r: Reader, session: string, ghost n: Node, ghost start: nat) returns (ghost f: seq<Field>)
    requires w.Valid() && w.total == "{" && w.out as object != r.tokens as object && Holding(r, n, start)
        && ValidRecord(n)
    modifies w, w.out
    ensures w.Valid() && f == CopiedFields(n, session, COPIED) && w.total == RecordWriter.Opened(f)
  {
    hide RecordWriter.Opened, CopiedFields, ValidRecord, StringNode, SourceValue, MemberOf, Describes;
    f := [];
    RecordWriter.OpenedNothing();
    CopyNext(n, session, 0);
    for i := 0 to |COPIED|
      invariant w.Valid() && f == CopiedFields(n, session, COPIED[..i]) && w.total == RecordWriter.Opened(f) && |f| == i
    {
      CopyNext(n, session, i);
      if COPIED[i] == SessionId {
        f := PutNew(w, f, SessionId, session, i > 0);
      } else {
        CopiedPresent(n, i);
        f := PutRaw(w, r, f, COPIED[i], COPIED[i], i > 0, n, start);
      }
    }
  }

  method PutAdded(w: Writer, r: Reader, ghost past: seq<Field>, id: string, ghost n: Node,
      ghost start: nat) returns (ghost f: seq<Field>)
    requires w.Valid() && w.total == RecordWriter.Opened(past) && past != [] && w.out as object != r.tokens as object
    requires Holding(r, n, start) && ValidRecord(n)
    modifies w, w.out
    ensures w.Valid() && f == past + AddedFields(n, id) && w.total == RecordWriter.Opened(f)
  {
    hide RecordWriter.Opened, ValidRecord, StringNode, SourceValue, MemberOf, Describes, Text;
    AddedPresent(n);
    RecordWriter.NullText();
    f := PutNew(w, past, Identifier, id, true);
    f := PutRaw(w, r, f, LastSeenMs, UptimeMs, true, n, start);
    f := PutRaw(w, r, f, SourcePrivacyMode, PrivacyMode, true, n, start);
    f := PutNew(w, f, PrivacyMode, SANITIZED, true);
    f := RecordWriter.PutText(w, f, Latitude, "null", NULL);
    f := RecordWriter.PutText(w, f, Longitude, "null", NULL);
    f := PutNew(w, f, LocationSource, NOWHERE, true);
  }

  /** The export of a valid record, complete, or nothing. */
  method ExportLogRecord(line: string, hmac: Hmac, keyed: bool, output: array<char>) returns (n: nat)
    modifies output
    ensures n > 0 <==> ValidLine(line) && keyed && Rekeyed(ParseText(line).node, hmac).Some?
                       && |ExportedLine(ParseText(line).node, hmac)| < output.Length
    ensures n > 0 ==> n < output.Length && output[..n] == ExportedLine(ParseText(line).node, hmac)
  {
    hide ValidRecord, Describes, ParseText, Tokens, ExportLine, Str, HexOf, TokenOfDigest, Group;
    var r := new Reader();
    var ok := r.Parse(line);
    if !ok {
      return 0;
    }
    ghost var node, start := ParseText(line).node, Skip(line, 0);
    HasTokens(node);
    ok := ValidateLog(r, node, start);
    if !ok || output.Length == 0 || !keyed {
      return 0;
    }
    n := ExportFrom(r, hmac, output, node, start);
  }

  ghost function ExportedLine(n: Node, hmac: Hmac): (line: string)
    ensures line != ""
  {
    match Rekeyed(n, hmac)
    case None => " "
    case Some((session, id)) => ExportLine(n, session, id)
  }

  method ExportFrom(r: Reader, hmac: Hmac, output: array<char>, ghost node: Node, ghost start: nat) returns (n: nat)
    requires Holding(r, node, start) && ValidRecord(node) && output.Length > 0 && output as object != r.tokens as object
    modifies output
    ensures n > 0 <==> Rekeyed(node, hmac).Some? && |ExportedLine(node, hmac)| < output.Length
    ensures n > 0 ==> n < output.Length && output[..n] == ExportedLine(node, hmac)
  {
    hide ValidRecord, Describes, ExportLine, Str, HexOf, TokenOfDigest, Group;
    AddedPresent(node);
    var session := ReadField(r, SessionId, node, start);
    var token := ReadField(r, Identifier, node, start);
    var identity := hmac(session.value + ":" + token.value);
    if identity.None? {
      return 0;
    }
    var id := Encode(identity.value);
    var whole := hmac(session.value);
    if whole.None? {
      return 0;
    }
    n := PutExport(r, HexOf(whole.value, 16), id, output, node, start);
  }

  method PutExport(r: Reader, session: string, id: string, output: array<char>, ghost node: Node,
      ghost start: nat) returns (n: nat)
    requires Holding(r, node, start) && ValidRecord(node) && output.Length > 0 && output as object != r.tokens as object
    modifies output
    ensures n == if |ExportLine(node, session, id)| < output.Length then |ExportLine(node, session, id)| else 0
    ensures n > 0 ==> n < output.Length && output[..n] == ExportLine(node, session, id)
  {
    hide ValidRecord, Describes, RecordWriter.Opened, Text, CopiedFields, AddedFields, ObjectNode;
    var w := new Writer(output);
    w.Text("{");
    ghost var f := PutCopied(w, r, session, node, start);
    f := PutAdded(w, r, f, id, node, start);
    w.Text("}\n");
    RecordWriter.ClosedText(f);
    n := w.Size();
  }

  /** The copied fields of a valid record are all there. */
  lemma CopiesAll(n: Node, session: string, id: string)
    requires ValidRecord(n)
    ensures var x := ObjectNode(ExportFields(n, session, id));
            && (forall k | k in COPIED && k != SessionId :: MemberOf(x, k) == MemberOf(n, k))
            && MemberOf(x, LastSeenMs) == MemberOf(n, UptimeMs)
                && MemberOf(x, SourcePrivacyMode) == MemberOf(n, PrivacyMode)
  {
    hide ValidRecord, MemberOf, ExportFields, StringNode, ObjectNode, SourceValue, Str;
    ExportCopies(n, session, id);
    AddedPresent(n);
    SourceIs(n, UptimeMs);
    SourceIs(n, PrivacyMode);
    forall k | k in COPIED && k != SessionId ensures Some(SourceValue(n, k)) == MemberOf(n, k) {
      CopiedIs(n, k);
    }
  }

  lemma SourceIs(n: Node, key: Key)
    requires MemberOf(n, key).Some?
    ensures Some(SourceValue(n, key)) == MemberOf(n, key)
  {
    hide MemberOf;
  }

  lemma CopiedIs(n: Node, key: Key)
    requires ValidRecord(n) && key in COPIED
    ensures Some(SourceValue(n, key)) == MemberOf(n, key)
  {
    hide ValidRecord, MemberOf, SourceValue;
    var i :| 0 <= i < |COPIED| && COPIED[i] == key;
    CopiedPresent(n, i);
    SourceIs(n, key);
  }

  /**
   * Whatever the exporter completes is JSON for the same reader, with the source's values in the copied fields, the
   * new identifiers, and no field outside the fixed set.
   */
  lemma ExportSound(line: string, hmac: Hmac)
    requires ValidLine(line) && Rekeyed(ParseText(line).node, hmac).Some?
    requires |ExportedLine(ParseText(line).node, hmac)| <= INPUT_MAX
    ensures var n := ParseText(line).node;
            var (session, id) := Rekeyed(n, hmac).value;
            var r := ParseText(ExportedLine(n, hmac));
            && r.Done? && r.node == ObjectNode(ExportFields(n, session, id))
            && (forall k | k in COPIED && k != SessionId :: MemberOf(r.node, k) == MemberOf(n, k))
            && MemberOf(r.node, LastSeenMs) == MemberOf(n, UptimeMs)
            && MemberOf(r.node, SourcePrivacyMode) == MemberOf(n, PrivacyMode)
            && MemberOf(r.node, SessionId) == Some(StringNode(session))
                && MemberOf(r.node, Identifier) == Some(StringNode(id))
  {
    hide ValidRecord, MemberOf, ExportFields, StringNode, Rekeyed, ExportLine, ParseText, ObjectNode;
    var n := ParseText(line).node;
    var (session, id) := Rekeyed(n, hmac).value;
    LineWellFormed(line);
    ExportParses(n, session, id);
    ExportCopies(n, session, id);
    CopiesAll(n, session, id);
  }

  lemma LineWellFormed(line: string)
    requires ParseText(line).Done?
    ensures WellFormed(ParseText(line).node)
  {
    hide ParseText, WellFormed;
    ParsedReads(line);
  }

  // ---- Who can be told apart ----

  /** Digests of different inputs differ in what becomes an identifier. */
  ghost predicate TellsApart(hmac: Hmac, x: string, y: string) {
    hmac(x).Some? && hmac(y).Some? && x != y ==>
      Token(hmac(x).value) != Token(hmac(y).value) && HexOf(hmac(x).value, 16) != HexOf(hmac(y).value, 16)
  }

  /** What the digest of a record's identifier is taken of. */
  function IdentityOf(n: Node): string {
    Str(n, SessionId).GetOr("") + ":" + Str(n, Identifier).GetOr("")
  }

  function Token(digest: Digest): string {
    TokenOfDigest(digest, TOKEN_SIZE)
  }

  /**
   * Within an export a device keeps its identifier: two records have the same new session exactly if they had the same
   * session, and the same new identifier exactly if they had the same session and identifier.
   */
  lemma IdentityKept(a: Node, b: Node, hmac: Hmac)
    requires ValidRecord(a) && ValidRecord(b) && Rekeyed(a, hmac).Some? && Rekeyed(b, hmac).Some?
    requires TellsApart(hmac, IdentityOf(a), IdentityOf(b))
    requires TellsApart(hmac, Str(a, SessionId).GetOr(""), Str(b, SessionId).GetOr(""))
    ensures Rekeyed(a, hmac).value.0 == Rekeyed(b, hmac).value.0 <==> Str(a, SessionId) == Str(b, SessionId)
    ensures Rekeyed(a, hmac).value.1 == Rekeyed(b, hmac).value.1 <==>
              Str(a, SessionId) == Str(b, SessionId) && Str(a, Identifier) == Str(b, Identifier)
  {
    hide ValidRecord, Str, HexOf, TokenOfDigest;
    AddedPresent(a);
    AddedPresent(b);
    var session, id := Str(a, SessionId).value, Str(a, Identifier).value;
    var session', id' := Str(b, SessionId).value, Str(b, Identifier).value;
    SessionSize(a);
    SessionSize(b);
    if session + ":" + id == session' + ":" + id' {
      Parts(session, id);
      Parts(session', id');
    }
    assert Token(hmac(session + ":" + id).value) == Rekeyed(a, hmac).value.1;
    assert Token(hmac(session' + ":" + id').value) == Rekeyed(b, hmac).value.1;
  }

  lemma Parts(session: string, id: string)
    requires |session| == 32
    ensures (session + ":" + id)[..32] == session && (session + ":" + id)[33..] == id
  {
  }

  lemma SessionSize(n: Node)
    requires ValidRecord(n)
    ensures Str(n, SessionId).Some? && |Str(n, SessionId).value| == 32
  {
    hide Str, Int, MemberOf, Measured, Counted, Chosen, Timed, Fed, Ruled, TextsPresent;
  }
}
