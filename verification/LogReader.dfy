/** valid_log_record on the token table: every check, member by member, against the checks on the tree. */
module LogReader {
  import opened Core
  import opened JsonText
  import opened JsonParser
  import opened JsonTokens
  import opened JsonReader
  import opened JsonFields
  import opened LogCheck

  /** The reader holds the tokens of this value, which begins at start. */
  ghost predicate Holding(r: Reader, n: Node, start: nat)
    reads r, r.tokens
  {
    r.Valid() && r.count > 0 && Describes(r.input, r.tokens[..r.count], n, start, 0)
  }

  lemma TokenOf(input: string, tokens: seq<Token>, n: Node, start: nat, t: nat)
    requires Describes(input, tokens, n, start, t)
    ensures t < |tokens| && tokens[t] == Token(start, |Text(n)|, t + Tokens(n), if n.Tree? then TreeKind(n.obj)
        else n.kind)
    ensures start + |Text(n)| <= |input| && input[start..start + |Text(n)|] == Text(n)
    ensures n.Leaf? ==> Text(n) == n.text && n.kind != Object && n.kind != Array && Tokens(n) == 1
    ensures n.Leaf? && n.kind == String ==> IsString(n.text)
  {
    FirstToken(tokens, n, start, t);
  }

  /** A member found by its token is the member found in the tree. */
  lemma Found(n: Node, key: Key, j: nat)
    requires WellFormed(n) && n.Tree? && n.obj && j < |n.elems| && KeyName(n.elems[j].key) == Some(Name(key))
    ensures MemberOf(n, key) == Some(n.elems[j].value)
  {
    hide Name, KeyName, FindIn, WellFormedElem;
    FindAt(n.elems, Name(key), j);
  }

  lemma NotFound(n: Node, key: Key)
    requires n.Tree? && n.obj ==> forall i | 0 <= i < |n.elems| :: KeyName(n.elems[i].key) != Some(Name(key))
    ensures MemberOf(n, key) == None
  {
    hide Name, KeyName, FindIn;
    if n.Tree? && n.obj {
      FindNone(n.elems, Name(key));
    }
  }

  /** member(): the token of the value, -1 for none. */
  method Lookup(r: Reader, key: Key, ghost n: Node, ghost start: nat) returns (v: int, ghost at: nat)
    requires Holding(r, n, start)
    ensures if v < 0 then v == -1 && MemberOf(n, key) == None
            else MemberOf(n, key).Some? && v < r.count && Describes(r.input, r.tokens[..r.count],
                MemberOf(n, key).value, at, v)
  {
    hide Name, KeyName, FindIn, Holds, At, ElemStart, ElemsTokens, WellFormedElem, DistinctKeys, Text, NodeTokens;
    ghost var j;
    v, j := r.Member(0, Name(key), n, start);
    if v < 0 {
      NotFound(n, key);
      at := 0;
    } else {
      Found(n, key, j);
      at := ValueAt(true, n.elems[j], ElemStart(true, n.elems, start + 1, j));
    }
  }

  method TextAt(r: Reader, v: int, out: array<char>, ghost n: Option<Node>, ghost at: nat) returns (ok: bool)
    requires r.Valid()
    requires if v < 0 then n == None
             else n.Some? && v < r.count && Describes(r.input, r.tokens[..r.count], n.value, at, v)
    modifies out
    ensures ok == StringOf(n, out.Length).Some?
    ensures ok ==> CString(out[..]) == StringOf(n, out.Length).value
  {
    hide Describes, IsString, Readable, CString, Text;
    if v >= 0 {
      TokenOf(r.input, r.tokens[..r.count], n.value, at, v);
    }
    ok := r.StringAt(v, out);
  }

  method StringMember(r: Reader, key: Key, out: array<char>, ghost n: Node, ghost start: nat) returns (ok: bool)
    requires Holding(r, n, start)
    modifies out
    ensures ok == StringOf(MemberOf(n, key), out.Length).Some?
    ensures ok ==> CString(out[..]) == StringOf(MemberOf(n, key), out.Length).value
  {
    hide Describes, MemberOf, StringOf, CString;
    ghost var at;
    var v;
    v, at := Lookup(r, key, n, start);
    ok := TextAt(r, v, out, MemberOf(n, key), at);
  }

  /** A string member in the buffer that every check uses. */
  method ReadField(r: Reader, key: Key, ghost n: Node, ghost start: nat) returns (s: Option<string>)
    requires Holding(r, n, start)
    ensures s == Str(n, key)
  {
    hide Describes, MemberOf, StringOf, CString;
    var b := new char[FIELD_BUFFER];
    var ok := StringMember(r, key, b, n, start);
    return if ok then Some(CString(b[..])) else None;
  }

  method Number(r: Reader, key: Key, ghost n: Node, ghost start: nat) returns (x: Option<int>)
    requires Holding(r, n, start)
    ensures x == Int(n, key)
  {
    hide Describes, MemberOf, IntegerOf, IsString, Text;
    ghost var at;
    var v;
    v, at := Lookup(r, key, n, start);
    if v >= 0 {
      TokenOf(r.input, r.tokens[..r.count], MemberOf(n, key).value, at, v);
    }
    x := r.Integer(v);
  }

  // ---- The checks ----

  method CheckTexts(r: Reader, ghost n: Node, ghost start: nat) returns (ok: bool)
    requires Holding(r, n, start)
    ensures ok == TextsPresent(n)
  {
    hide Holding, Str;
    for i := 0 to |TEXT_KEYS|
      invariant forall k | 0 <= k < i :: Str(n, TEXT_KEYS[k]).Some? && Str(n, TEXT_KEYS[k]).value != ""
    {
      var s := ReadField(r, TEXT_KEYS[i], n, start);
      if s.None? || s.value == "" {
        assert TEXT_KEYS[i] in TEXT_KEYS;
        return false;
      }
    }
    return true;
  }

  method CheckIdentified(r: Reader, ghost n: Node, ghost start: nat) returns (ok: bool)
    requires Holding(r, n, start)
    ensures ok == Identified(n)
  {
    hide Holding, Str, SessionShape, TokenShape;
    var s := ReadField(r, Hardware, n, start);
    if s != Some(HARDWARE) {
      return false;
    }
    s := ReadField(r, SessionId, n, start);
    if s.None? || !SessionShape(s.value) {
      return false;
    }
    s := ReadField(r, Identifier, n, start);
    if s.None? || !TokenShape(s.value) {
      return false;
    }
    s := ReadField(r, Category, n, start);
    if s.None? {
      return false;
    }
    var known := false;
    for i := 0 to |CATEGORIES|
      invariant known <==> s.value in CATEGORIES[..i]
    {
      known := known || s.value == CATEGORIES[i];
      assert CATEGORIES[..i + 1] == CATEGORIES[..i] + [CATEGORIES[i]];
    }
    assert CATEGORIES[..|CATEGORIES|] == CATEGORIES;
    return known;
  }

  method Between(r: Reader, key: Key, low: int, high: int, ghost n: Node, ghost start: nat) returns (ok: bool)
    requires Holding(r, n, start)
    ensures ok == LogCheck.Within(n, key, low, high)
  {
    hide Holding, Int;
    var x := Number(r, key, n, start);
    return x.Some? && low <= x.value <= high;
  }

  method CheckCounted(r: Reader, ghost n: Node, ghost start: nat) returns (ok: bool)
    requires Holding(r, n, start)
    ensures ok == Counted(n)
  {
    hide Holding, Int, Str, GradeName;
    ok := Between(r, SchemaVersion, 1, 1, n, start);
    if ok {
      ok := Between(r, Score, 1, 100, n, start);
    }
    if ok {
      ok := Between(r, SeenCount, 1, SEEN_MAX, n, start);
    }
    if ok {
      ok := Between(r, Channel, 0, 14, n, start);
    }
    if ok {
      ok := Between(r, FirstSeenMs, 0, TIME_MAX, n, start);
    }
    if ok {
      ok := Between(r, UptimeMs, 0, TIME_MAX, n, start);
    }
    if ok {
      var first := Number(r, FirstSeenMs, n, start);
      var last := Number(r, UptimeMs, n, start);
      var score := Number(r, Score, n, start);
      var s := ReadField(r, Confidence, n, start);
      ok := first.value <= last.value && s == Some(GradeName(score.value));
    }
  }

  method CheckMeasured(r: Reader, ghost n: Node, ghost start: nat) returns (ok: bool)
    requires Holding(r, n, start)
    ensures ok == Measured(n)
  {
    hide Holding, Int;
    ok := Between(r, RssiMin, -127, 20, n, start);
    if ok {
      ok := Between(r, RssiMax, -127, 20, n, start);
    }
    if ok {
      ok := Between(r, RssiAvg, -127, 20, n, start);
    }
    if ok {
      var low := Number(r, RssiMin, n, start);
      var high := Number(r, RssiMax, n, start);
      var average := Number(r, RssiAvg, n, start);
      ok := low.value <= average.value <= high.value;
    }
  }

  method Choice(r: Reader, key: Key, a: string, b: string, ghost n: Node, ghost start: nat) returns (ok: bool)
    requires Holding(r, n, start)
    ensures ok == OneOf(n, key, a, b)
  {
    hide Holding, Str;
    var s := ReadField(r, key, n, start);
    return s == Some(a) || s == Some(b);
  }

  method CheckChosen(r: Reader, ghost n: Node, ghost start: nat) returns (ok: bool)
    requires Holding(r, n, start)
    ensures ok == Chosen(n)
  {
    hide Holding, OneOf;
    ok := Choice(r, Key.Radio, "wifi", "ble", n, start);
    if ok {
      ok := Choice(r, Region, "US", "EU", n, start);
    }
    if ok {
      ok := Choice(r, PrivacyMode, PRIVATE_NAME, RESEARCH_NAME, n, start);
    }
    if ok {
      ok := Choice(r, AddressType, "public", "random", n, start);
    }
    if ok {
      ok := Choice(r, TimeQuality, UPTIME_ONLY, MANUAL, n, start);
    }
  }

  method CheckTimed(r: Reader, ghost n: Node, ghost start: nat) returns (ok: bool)
    requires Holding(r, n, start)
    ensures ok == Timed(n)
  {
    hide Describes, MemberOf, StringOf, CString, Text, Calendar.StampShape, Calendar.ParseUtc, Calendar.StampDigits;
    ghost var at;
    var v;
    v, at := Lookup(r, ObservedAt, n, start);
    if v >= 0 {
      TokenOf(r.input, r.tokens[..r.count], MemberOf(n, ObservedAt).value, at, v);
    }
    var quality := ReadField(r, TimeQuality, n, start);
    if quality == Some(UPTIME_ONLY) {
      return v >= 0 && r.Raw(v) == "null";
    }
    ok := CheckStamp(r, v, MemberOf(n, ObservedAt), at);
  }

  method CheckStamp(r: Reader, v: int, ghost m: Option<Node>, ghost at: nat) returns (ok: bool)
    requires r.Valid()
    requires if v < 0 then m == None
             else m.Some? && v < r.count && Describes(r.input, r.tokens[..r.count], m.value, at, v)
    ensures ok == (var utc := StringOf(m, UTC_BUFFER);
                   utc.Some? && Calendar.StampShape(utc.value)
                       && Calendar.ParseUtc(Calendar.StampDigits(utc.value)).Some?)
  {
    hide Describes, StringOf, CString, Calendar.ParseUtc, Calendar.StampDigits;
    var b := new char[UTC_BUFFER];
    ok := TextAt(r, v, b, m, at);
    if !ok || !Calendar.StampShape(CString(b[..])) {
      return false;
    }
    var seconds := Calendar.ReadUtc(Calendar.StampDigits(CString(b[..])));
    return seconds.Some?;
  }

  method CheckFed(r: Reader, ghost n: Node, ghost start: nat) returns (ok: bool)
    requires Holding(r, n, start)
    ensures ok == Fed(n)
  {
    hide Describes, MemberOf, Text;
    ghost var at;
    var v;
    v, at := Lookup(r, MealAwarded, n, start);
    if v < 0 {
      return false;
    }
    TokenOf(r.input, r.tokens[..r.count], MemberOf(n, MealAwarded).value, at, v);
    return r.tokens[v].kind == Boolean;
  }

  lemma {:induction false} LeavesTokens(elems: seq<Elem>)
    ensures |elems| <= ElemsTokens(false, elems)
    ensures (forall i | 0 <= i < |elems| :: elems[i].value.Leaf?) ==> ElemsTokens(false, elems) == |elems|
  {
    if elems != [] {
      LeavesTokens(elems[..|elems| - 1]);
    }
  }

  /** The token of element k of an array, when the elements before it are leaves. */
  lemma ElementToken(input: string, tokens: seq<Token>, list: Node, at: nat, t: nat, k: nat)
    requires Describes(input, tokens, list, at, t) && list.Tree? && !list.obj && k < |list.elems|
    requires forall i | 0 <= i < k :: list.elems[i].value.Leaf?
    ensures Describes(input, tokens, list.elems[k].value,
        ElemStart(false, list.elems, at + 1, k) + |list.elems[k].lead|, t + 1 + k)
  {
    LeavesTokens(list.elems[..k]);
    ElemDescribed(input, tokens, list, at, t, k);
    var e, start := list.elems[k], ElemStart(false, list.elems, at + 1, k);
    ElementPlaced(input, start, e);
  }

  lemma ElementPlaced(input: string, start: nat, e: Elem)
    requires At(input, start, ElemText(false, e))
    ensures At(input, start + |e.lead|, Text(e.value))
  {
    hide Text;
    AtConcat(input, start, e.lead, ElemBody(false, e));
    assert ElemBody(false, e) == Text(e.value) + e.after;
    AtConcat(input, start + |e.lead|, Text(e.value), e.after);
  }

  method CheckId(r: Reader, i: int, ghost id: Node, ghost at: nat) returns (ok: bool)
    requires r.Valid() && 0 <= i < r.count && Describes(r.input, r.tokens[..r.count], id, at, i)
    ensures ok == IdNode(id)
  {
    hide Describes, StringOf, CString;
    var b := new char[ID_BUFFER];
    ok := TextAt(r, i, b, Some(id), at);
    if !ok || CString(b[..]) == "" {
      return false;
    }
    var s := CString(b[..]);
    for k := 0 to |s|
      invariant forall m | 0 <= m < k :: IdChar(s[m])
    {
      if !IdChar(s[k]) {
        return false;
      }
    }
    return true;
  }

  /** The rule ids: the tokens of the list, one by one. */
  method CheckRuled(r: Reader, ghost n: Node, ghost start: nat) returns (ok: bool)
    requires Holding(r, n, start)
    ensures ok == Ruled(n)
  {
    hide Describes, MemberOf, IdNode, Text;
    ghost var at;
    var rules;
    rules, at := Lookup(r, RuleIds, n, start);
    if rules < 0 {
      return false;
    }
    TokenOf(r.input, r.tokens[..r.count], MemberOf(n, RuleIds).value, at, rules);
    if r.tokens[rules].kind != Array {
      return false;
    }
    ok := CheckIds(r, rules, MemberOf(n, RuleIds).value, at);
  }

  method CheckIds(r: Reader, rules: nat, ghost list: Node, ghost at: nat) returns (ok: bool)
    requires r.Valid() && rules < r.count && list.Tree? && !list.obj
    requires Describes(r.input, r.tokens[..r.count], list, at, rules) && r.tokens[rules].after == rules + Tokens(list)
    ensures ok == (1 <= |list.elems| <= 4 && forall i | 0 <= i < |list.elems| :: IdNode(list.elems[i].value))
  {
    hide Describes, Text, IdNode, Tokens, ElemsTokens, ElemStart, TreeKind;
    SizeOfIds(list);
    var end := r.tokens[rules].after;
    if end - rules < 2 || end - rules > 5 {
      return false;
    }
    for i := rules + 1 to end
      invariant i - rules - 1 <= |list.elems|
      invariant forall k | 0 <= k < i - rules - 1 :: IdNode(list.elems[k].value)
    {
      ghost var k := i - rules - 1;
      NextId(r.input, r.tokens[..r.count], list, at, rules, k);
      var good := CheckId(r, i, list.elems[k].value, IdStart(list, at, k));
      if !good {
        return false;
      }
    }
    return true;
  }

  ghost function IdStart(list: Node, at: nat, k: nat): nat
    requires list.Tree? && k < |list.elems|
  {
    ElemStart(false, list.elems, at + 1, k) + |list.elems[k].lead|
  }

  lemma SizeOfIds(list: Node)
    requires list.Tree? && !list.obj
    ensures |list.elems| < Tokens(list)
    ensures (forall i | 0 <= i < |list.elems| :: IdNode(list.elems[i].value)) ==> Tokens(list) == 1 + |list.elems|
  {
    LeavesTokens(list.elems);
    IdsAreLeaves(list.elems);
  }

  lemma NextId(input: string, tokens: seq<Token>, list: Node, at: nat, t: nat, k: nat)
    requires Describes(input, tokens, list, at, t) && list.Tree? && !list.obj && k <= |list.elems|
        && k + 1 < Tokens(list)
    requires forall i | 0 <= i < k :: IdNode(list.elems[i].value)
    ensures k < |list.elems| && t + 1 + k < |tokens|
    ensures Describes(input, tokens, list.elems[k].value, IdStart(list, at, k), t + 1 + k)
  {
    hide Describes, IdNode, Tokens, ElemStart;
    IdsAreLeaves(list.elems[..k]);
    MoreElements(list, k);
    ElementToken(input, tokens, list, at, t, k);
    TokenOf(input, tokens, list.elems[k].value, IdStart(list, at, k), t + 1 + k);
  }

  lemma IdsAreLeaves(elems: seq<Elem>)
    ensures (forall i | 0 <= i < |elems| :: IdNode(elems[i].value)) ==> forall i | 0 <= i < |elems| ::
        elems[i].value.Leaf?
  {
  }

  /** As long as tokens are left, so are elements. */
  lemma MoreElements(list: Node, k: nat)
    requires list.Tree? && !list.obj && k <= |list.elems| && k + 1 < Tokens(list)
    requires forall i | 0 <= i < k :: list.elems[i].value.Leaf?
    ensures k < |list.elems|
  {
    if k == |list.elems| {
      LeavesTokens(list.elems);
    }
  }

  // ---- The whole check ----

  method ValidateLog(r: Reader, ghost n: Node, ghost start: nat) returns (ok: bool)
    requires Holding(r, n, start)
    ensures ok == ValidRecord(n)
  {
    hide Describes, TextsPresent, Identified, Counted, Measured, Chosen, Timed, Fed, Ruled, Text;
    TokenOf(r.input, r.tokens[..r.count], n, start, 0);
    if r.tokens[0].kind != Object {
      return false;
    }
    ok := CheckTexts(r, n, start);
    if ok {
      ok := CheckIdentified(r, n, start);
    }
    if ok {
      ok := CheckCounted(r, n, start);
    }
    if ok {
      ok := CheckMeasured(r, n, start);
    }
    if ok {
      ok := CheckChosen(r, n, start);
    }
    if ok {
      ok := CheckTimed(r, n, start);
    }
    if ok {
      ok := CheckFed(r, n, start);
    }
    if ok {
      ok := CheckRuled(r, n, start);
    }
  }

  method ValidLogRecord(line: string) returns (ok: bool)
    ensures ok == ValidLine(line)
  {
    hide ValidRecord, Describes, Tokens, ParseText;
    var r := new Reader();
    ok := r.Parse(line);
    if ok {
      HasTokens(ParseText(line).node);
      ok := ValidateLog(r, ParseText(line).node, Skip(line, 0));
    }
  }

  lemma HasTokens(n: Node)
    ensures Tokens(n) > 0
  {
  }
}
