/** The bounded recursive-descent parser, as functions, and its agreement with the grammar. */
module JsonParser {
  import opened Core
  import opened JsonText

  const DEPTH_MAX: nat := 8
  const TOKEN_MAX: nat := 160
  const INPUT_MAX: nat := 2048

  datatype Parse = Fail | Done(node: Node, end: nat)

  // ---- Scanning ----

  function Skip(s: string, pos: nat): (end: nat)
    requires pos <= |s|
    ensures pos <= end <= |s| && Blank(s[pos..end]) && (end == |s| || !IsSpace(s[end]))
    decreases |s| - pos
  {
    if pos < |s| && IsSpace(s[pos]) then
      var end := Skip(s, pos + 1);
      assert s[pos..end] == [s[pos]] + s[pos + 1..end];
      end
    else pos
  }

  predicate DigitAt(s: string, pos: nat) {
    pos < |s| && IsDigit(s[pos])
  }

  function DigitsEnd(s: string, pos: nat): (end: nat)
    requires pos <= |s|
    ensures pos <= end <= |s| && !DigitAt(s, end) && forall i | pos <= i < end :: IsDigit(s[i])
    decreases |s| - pos
  {
    if DigitAt(s, pos) then DigitsEnd(s, pos + 1) else pos
  }

  /** pos is behind the opening quote. */
  function StringEnd(s: string, pos: nat): (end: Option<nat>)
    requires pos <= |s|
    ensures end.Some? ==> pos < end.value <= |s|
    decreases |s| - pos
  {
    if pos == |s| then None
    else if s[pos] == '"' then Some(pos + 1)
    else
      var n := ItemSize(s[pos..]);
      if n == 0 then None else StringEnd(s, pos + n)
  }

  function WholeEnd(s: string, pos: nat): (end: Option<nat>)
    requires pos <= |s|
    ensures end.Some? ==> pos < end.value <= |s|
  {
    if pos == |s| then None
    else if s[pos] == '0' then Some(pos + 1)
    else if DigitAt(s, pos) then Some(DigitsEnd(s, pos))
    else None
  }

  function FractionEnd(s: string, pos: nat): (end: Option<nat>)
    requires pos <= |s|
    ensures end.Some? ==> pos <= end.value <= |s|
  {
    if pos < |s| && s[pos] == '.' then
      if DigitAt(s, pos + 1) then Some(DigitsEnd(s, pos + 1)) else None
    else Some(pos)
  }

  function ExponentEnd(s: string, pos: nat): (end: Option<nat>)
    requires pos <= |s|
    ensures end.Some? ==> pos <= end.value <= |s|
  {
    if pos < |s| && (s[pos] == 'e' || s[pos] == 'E') then
      var digits := if pos + 1 < |s| && (s[pos + 1] == '+' || s[pos + 1] == '-') then pos + 2 else pos + 1;
      if DigitAt(s, digits) then Some(DigitsEnd(s, digits)) else None
    else Some(pos)
  }

  function NumberEnd(s: string, pos: nat): (end: Option<nat>)
    requires pos < |s|
    ensures end.Some? ==> pos < end.value <= |s|
  {
    match WholeEnd(s, if s[pos] == '-' then pos + 1 else pos)
    case None => None
    case Some(whole) =>
      match FractionEnd(s, whole)
      case None => None
      case Some(fraction) => ExponentEnd(s, fraction)
  }

  predicate WordAt(s: string, pos: nat, word: string) {
    pos + |word| <= |s| && s[pos..pos + |word|] == word
  }

  /** A value that is not a tree, starting at pos. */
  function ParseLeaf(s: string, pos: nat): (r: Parse)
    requires pos < |s|
    ensures r.Done? ==> pos < r.end <= |s|
  {
    var c := s[pos];
    if c == '"' then Finish(s, pos, String, StringEnd(s, pos + 1))
    else if c == 't' then Finish(s, pos, Boolean, if WordAt(s, pos, "true") then Some(pos + 4) else None)
    else if c == 'f' then Finish(s, pos, Boolean, if WordAt(s, pos, "false") then Some(pos + 5) else None)
    else if c == 'n' then Finish(s, pos, Null, if WordAt(s, pos, "null") then Some(pos + 4) else None)
    else Finish(s, pos, Number, NumberEnd(s, pos))
  }

  function Finish(s: string, pos: nat, kind: Kind, end: Option<nat>): (r: Parse)
    requires end.Some? ==> pos < end.value <= |s|
    ensures r.Done? ==> pos < r.end <= |s|
  {
    match end
    case None => Fail
    case Some(e) => Done(Leaf(kind, s[pos..e]), e)
  }

  // ---- Values ----

  /** pos is where the value starts; count tokens have been used before it. */
  function ParseValue(s: string, pos: nat, depth: nat, count: nat): (r: Parse)
    requires pos <= |s|
    ensures r.Done? ==> pos < r.end <= |s|
    decreases |s| - pos, 0
  {
    if depth > DEPTH_MAX || pos == |s| || count >= TOKEN_MAX then Fail
    else if s[pos] == '{' || s[pos] == '[' then
      var obj := s[pos] == '{';
      var inner := Skip(s, pos + 1);
      if inner < |s| && s[inner] == Close(obj) then Done(Tree(obj, s[pos + 1..inner], []), inner + 1)
      else ParseElems(s, inner, depth, count + 1, obj, s[pos + 1..inner], [])
    else ParseLeaf(s, pos)
  }

  /** pos is behind the white space in front of the next element; done holds those before it. */
  function ParseElems(s: string, pos: nat, depth: nat, count: nat, obj: bool, lead: string, done: seq<Elem>): (r: Parse)
    requires pos <= |s|
    ensures r.Done? ==> pos < r.end <= |s|
    decreases |s| - pos, 2
  {
    if !obj then ParseRest(s, pos, depth, count, obj, Elem(lead, "", "", "", Leaf(Null, ""), ""), done)
    else if pos == |s| || s[pos] != '"' then Fail
    else
      match ParseValue(s, pos, depth + 1, count)
      case Fail => Fail
      case Done(key, end) =>
        var text := s[pos..end];
        if KeyName(text).None? || KeyTaken(done, KeyName(text)) then Fail
        else
          var colon := Skip(s, end);
          if colon == |s| || s[colon] != ':' then Fail
          else
            var start := Skip(s, colon + 1);
            ParseRest(s, start, depth, count + 1, obj,
                      Elem(lead, text, s[end..colon], s[colon + 1..start], Leaf(Null, ""), ""), done)
  }

  predicate KeyTaken(done: seq<Elem>, name: Option<string>) {
    exists i | 0 <= i < |done| :: KeyName(done[i].key) == name
  }

  /** The value of element e, and what follows it. */
  function ParseRest(s: string, pos: nat, depth: nat, count: nat, obj: bool, e: Elem, done: seq<Elem>): (r: Parse)
    requires pos <= |s|
    ensures r.Done? ==> pos < r.end <= |s|
    decreases |s| - pos, 1
  {
    match ParseValue(s, pos, depth + 1, count)
    case Fail => Fail
    case Done(v, end) =>
      var next := Skip(s, end);
      ParseNext(s, next, depth, count + Tokens(v), obj, done + [e.(value := v, after := s[end..next])])
  }

  /** What follows a complete element: the closing bracket, or a comma and another one. */
  function ParseNext(s: string, next: nat, depth: nat, count: nat, obj: bool, all: seq<Elem>): (r: Parse)
    requires next <= |s|
    ensures r.Done? ==> next < r.end <= |s|
    decreases |s| - next, 3
  {
    if next == |s| then Fail
    else if s[next] == Close(obj) then Done(Tree(obj, "", all), next + 1)
    else if s[next] != ',' then Fail
    else
      var start := Skip(s, next + 1);
      ParseElems(s, start, depth, count, obj, s[next + 1..start], all)
  }

  /** The whole input: one value with white space around it. */
  function ParseText(s: string): Parse {
    if s == "" || |s| > INPUT_MAX then Fail
    else
      match ParseValue(s, Skip(s, 0), 0, 0)
      case Fail => Fail
      case Done(n, end) => if Skip(s, end) == |s| then Done(n, end) else Fail
  }

  // ---- The parser accepts only the grammar ----

  lemma {:induction false} StringEndSound(s: string, pos: nat)
    requires pos <= |s| && StringEnd(s, pos).Some?
    ensures var end := StringEnd(s, pos).value; s[end - 1] == '"' && StringBody(s[pos..end - 1])
    decreases |s| - pos
  {
    if s[pos] == '"' {
      assert s[pos..pos] == "";
    } else {
      var n, end := ItemSize(s[pos..]), StringEnd(s, pos).value;
      StringEndSound(s, pos + n);
      ItemSizeLocal(s[pos..], s[pos..end - 1]);
      assert s[pos..end - 1][n..] == s[pos + n..end - 1];
    }
  }

  /** An item is read from its own characters alone. */
  lemma ItemSizeLocal(b: string, prefix: string)
    requires prefix <= b && ItemSize(b) <= |prefix|
    ensures ItemSize(b) > 0 ==> ItemSize(prefix) == ItemSize(b)
  {
  }

  lemma DigitsSound(s: string, pos: nat)
    requires DigitAt(s, pos)
    ensures pos < DigitsEnd(s, pos) && Digits(s[pos..DigitsEnd(s, pos)])
  {
  }

  lemma WholeEndSound(s: string, pos: nat)
    requires pos <= |s| && WholeEnd(s, pos).Some?
    ensures IsInteger(s[pos..WholeEnd(s, pos).value])
  {
    if s[pos] != '0' {
      DigitsSound(s, pos);
    }
  }

  lemma FractionEndSound(s: string, pos: nat)
    requires pos <= |s| && FractionEnd(s, pos).Some?
    ensures IsFraction(s[pos..FractionEnd(s, pos).value])
  {
    var end := FractionEnd(s, pos).value;
    if pos < |s| && s[pos] == '.' {
      DigitsSound(s, pos + 1);
      assert s[pos..end][1..] == s[pos + 1..end];
    }
  }

  lemma ExponentEndSound(s: string, pos: nat)
    requires pos <= |s| && ExponentEnd(s, pos).Some?
    ensures IsExponent(s[pos..ExponentEnd(s, pos).value])
  {
    var end := ExponentEnd(s, pos).value;
    if pos < |s| && (s[pos] == 'e' || s[pos] == 'E') {
      var signed := pos + 1 < |s| && (s[pos + 1] == '+' || s[pos + 1] == '-');
      DigitsSound(s, if signed then pos + 2 else pos + 1);
      assert s[pos..end][1..] == s[pos + 1..end];
      assert signed ==> s[pos..end][2..] == s[pos + 2..end];
    }
  }

  lemma NumberEndSound(s: string, pos: nat)
    requires pos < |s| && NumberEnd(s, pos).Some?
    ensures IsNumber(s[pos..NumberEnd(s, pos).value])
  {
    var start := if s[pos] == '-' then pos + 1 else pos;
    var whole := WholeEnd(s, start).value;
    var fraction := FractionEnd(s, whole).value;
    WholeEndSound(s, start);
    FractionEndSound(s, whole);
    ExponentEndSound(s, fraction);
    FourSlices(s, pos, start, whole, fraction, NumberEnd(s, pos).value);
  }

  lemma Joined(s: string, a: nat, b: nat, c: nat)
    requires a <= b <= c <= |s|
    ensures s[a..c] == s[a..b] + s[b..c]
  {
  }

  lemma FourSlices(s: string, pos: nat, start: nat, whole: nat, fraction: nat, end: nat)
    requires pos <= start <= whole <= fraction <= end <= |s|
    requires s[pos..start] == "" || s[pos..start] == "-"
    requires IsInteger(s[start..whole]) && IsFraction(s[whole..fraction]) && IsExponent(s[fraction..end])
    ensures IsNumber(s[pos..end])
  {
    Joined(s, pos, start, whole);
    Joined(s, pos, whole, fraction);
    Joined(s, pos, fraction, end);
    hide IsInteger, IsFraction, IsExponent;
    assert NumberOf(s[pos..end], s[pos..start], s[start..whole], s[whole..fraction], s[fraction..end]);
  }

  lemma LeafSound(s: string, pos: nat)
    requires pos < |s| && ParseLeaf(s, pos).Done?
    ensures var r := ParseLeaf(s, pos); r.node.Leaf? && WellFormed(r.node) && Text(r.node) == s[pos..r.end]
    ensures s[pos] == '"' ==> IsString(s[pos..ParseLeaf(s, pos).end])
  {
    hide NumberEnd, StringEnd, IsNumber, IsString;
    if s[pos] == '"' {
      QuotedSound(s, pos);
    } else if s[pos] != 't' && s[pos] != 'f' && s[pos] != 'n' {
      NumberEndSound(s, pos);
    }
  }

  lemma QuotedSound(s: string, pos: nat)
    requires pos < |s| && s[pos] == '"' && StringEnd(s, pos + 1).Some?
    ensures IsString(s[pos..StringEnd(s, pos + 1).value])
  {
    hide StringEnd, ItemSize, StringBody;
    var end := StringEnd(s, pos + 1).value;
    StringEndSound(s, pos + 1);
    Unquoted(s, pos, end, s[pos..end]);
  }

  lemma Unquoted(s: string, pos: nat, end: nat, t: string)
    requires pos + 2 <= end <= |s| && t == s[pos..end]
    ensures |t| == end - pos && t[0] == s[pos] && t[|t| - 1] == s[end - 1] && t[1..|t| - 1] == s[pos + 1..end - 1]
  {
    var inner := t[1..|t| - 1];
    assert forall i | 0 <= i < |inner| :: inner[i] == s[pos + 1 + i];
  }

  /** Within the bounds that remain at this depth after count tokens. */
  ghost predicate Fits(n: Node, depth: nat, count: nat) {
    depth + Height(n) <= DEPTH_MAX && count + Tokens(n) <= TOKEN_MAX
  }

  lemma ElemsGrow(obj: bool, done: seq<Elem>, e: Elem)
    ensures ElemsText(obj, done + [e]) == ElemsText(obj, done) + (if done != [] then "," else "") + ElemText(obj, e)
    ensures ElemsTokens(obj, done + [e]) == ElemsTokens(obj, done) + (if obj then 1 else 0) + Tokens(e.value)
    ensures ElemsHeight(done + [e]) == Max(ElemsHeight(done), Height(e.value))
  {
    assert (done + [e])[..|done|] == done;
  }

  /** Between start (the opening bracket) and pos lie the elements done and the next one's lead. */
  ghost predicate Progress(s: string, start: nat, pos: nat, depth: nat, first: nat, count: nat, obj: bool, lead: string,
      done: seq<Elem>) {
    && start < |s| && s[start] == Open(obj) && pos <= |s|
    && At(s, start + 1, ElemsText(obj, done) + (if done != [] then "," else "") + lead)
    && pos == start + 1 + |ElemsText(obj, done) + (if done != [] then "," else "") + lead|
    && Blank(lead) && depth <= DEPTH_MAX
    && (forall i | 0 <= i < |done| :: WellFormedElem(obj, done[i]))
    && (obj ==> DistinctKeys(done))
    && (done != [] ==> depth + 1 + ElemsHeight(done) <= DEPTH_MAX)
    && count == first + 1 + ElemsTokens(obj, done) && count <= TOKEN_MAX
  }

  lemma ProgressStep(s: string, start: nat, pos: nat, depth: nat, first: nat, count: nat, obj: bool, lead: string,
                     done: seq<Elem>, e: Elem, end: nat)
    requires Progress(s, start, pos, depth, first, count, obj, lead, done)
    requires e.lead == lead && WellFormedElem(obj, e) && At(s, pos, ElemBody(obj, e))
    requires end == pos + |ElemBody(obj, e)|
    requires obj ==> KeyName(e.key).Some? && !KeyTaken(done, KeyName(e.key))
    requires depth + 1 + Height(e.value) <= DEPTH_MAX
    requires count + (if obj then 1 else 0) + Tokens(e.value) <= TOKEN_MAX
    ensures At(s, start + 1, ElemsText(obj, done + [e])) && end == start + 1 + |ElemsText(obj, done + [e])|
    ensures forall i | 0 <= i <= |done| :: WellFormedElem(obj, (done + [e])[i])
    ensures obj ==> DistinctKeys(done + [e])
    ensures depth + 1 + ElemsHeight(done + [e]) <= DEPTH_MAX
    ensures count + (if obj then 1 else 0) + Tokens(e.value) == first + 1 + ElemsTokens(obj, done + [e])
  {
    hide ElemBody, Text, Tokens, Height, IsString, WellFormedElem, KeyName, Blank, Open;
    ElemsGrow(obj, done, e);
    var before := ElemsText(obj, done) + (if done != [] then "," else "") + lead;
    AtConcat(s, start + 1, before, ElemBody(obj, e));
    assert ElemsText(obj, done + [e]) == before + ElemBody(obj, e);
    if obj {
      var all := done + [e];
      forall i, j | 0 <= i < j < |all| ensures KeyName(all[i].key) != KeyName(all[j].key) {
        if j == |done| {
          assert KeyName(done[i].key) != KeyName(e.key);
        }
      }
    }
  }

  ghost predicate Accepted(s: string, start: nat, depth: nat, count: nat, r: Parse) {
    r.Done? ==>
      && WellFormed(r.node) && Fits(r.node, depth, count)
      && At(s, start, Text(r.node)) && r.end == start + |Text(r.node)|
  }

  lemma AcceptedParts(s: string, start: nat, depth: nat, count: nat, n: Node, end: nat)
    requires Accepted(s, start, depth, count, Done(n, end))
    ensures WellFormed(n) && Fits(n, depth, count) && start <= end <= |s| && s[start..end] == Text(n)
  {
    hide WellFormed, Text;
  }

  lemma TreeAccepted(s: string, start: nat, depth: nat, first: nat, obj: bool, all: seq<Elem>, next: nat)
    requires start < |s| && s[start] == Open(obj) && all != []
    requires At(s, start + 1, ElemsText(obj, all)) && next == start + 1 + |ElemsText(obj, all)|
    requires next < |s| && s[next] == Close(obj)
    requires forall i | 0 <= i < |all| :: WellFormedElem(obj, all[i])
    requires obj ==> DistinctKeys(all)
    requires depth + 1 + ElemsHeight(all) <= DEPTH_MAX && first + 1 + ElemsTokens(obj, all) <= TOKEN_MAX
    ensures Accepted(s, start, depth, first, Done(Tree(obj, "", all), next + 1))
  {
    AtConcat(s, start, [Open(obj)], ElemsText(obj, all));
    AtConcat(s, start, [Open(obj)] + ElemsText(obj, all), [Close(obj)]);
  }

  lemma EmptyTreeAccepted(s: string, start: nat, depth: nat, first: nat, obj: bool, inner: nat)
    requires start < inner < |s| && s[start] == Open(obj) && s[inner] == Close(obj)
    requires Blank(s[start + 1..inner]) && depth <= DEPTH_MAX && first < TOKEN_MAX
    ensures Accepted(s, start, depth, first, Done(Tree(obj, s[start + 1..inner], []), inner + 1))
  {
    var n := Tree(obj, s[start + 1..inner], []);
    assert Text(n) == [s[start]] + s[start + 1..inner] + [s[inner]] == s[start..inner + 1];
  }

  lemma ColonText(s: string, pos: nat, end: nat, colon: nat, value: nat)
    requires pos <= end <= colon < value <= |s| && s[colon] == ':'
    ensures s[pos..value] == s[pos..end] + s[end..colon] + ":" + s[colon + 1..value]
  {
    assert s[pos..colon] == s[pos..end] + s[end..colon];
    assert s[pos..colon + 1] == s[pos..colon] + ":";
    assert s[pos..value] == s[pos..colon + 1] + s[colon + 1..value];
  }

  lemma BodyText(s: string, body: nat, pos: nat, end: nat, next: nat, obj: bool, e: Elem)
    requires body <= pos <= end <= next <= |s|
    requires s[body..pos] == if obj then e.key + e.colonLead + ":" + e.colonAfter else ""
    requires s[pos..end] == Text(e.value) && s[end..next] == e.after
    ensures ElemBody(obj, e) == s[body..next]
  {
    assert s[body..end] == s[body..pos] + s[pos..end];
    assert s[body..next] == s[body..end] + s[end..next];
  }

  lemma CommaText(s: string, start: nat, obj: bool, all: seq<Elem>, next: nat, after: nat)
    requires At(s, start + 1, ElemsText(obj, all)) && next == start + 1 + |ElemsText(obj, all)|
    requires next < after <= |s| && s[next] == ','
    ensures At(s, start + 1, ElemsText(obj, all) + "," + s[next + 1..after])
  {
    AtConcat(s, start + 1, ElemsText(obj, all), ",");
    AtConcat(s, start + 1, ElemsText(obj, all) + ",", s[next + 1..after]);
  }

  lemma {:induction false} ValueSound(s: string, pos: nat, depth: nat, count: nat)
    requires pos <= |s|
    ensures Accepted(s, pos, depth, count, ParseValue(s, pos, depth, count))
    ensures pos < |s| && s[pos] == '"' && ParseValue(s, pos, depth, count).Done? ==>
              IsString(s[pos..ParseValue(s, pos, depth, count).end])
    decreases |s| - pos, 0
  {
    hide ParseElems, ParseRest, ParseNext, ParseLeaf, IsString;
    var r := ParseValue(s, pos, depth, count);
    if depth > DEPTH_MAX || pos == |s| || count >= TOKEN_MAX {
      assert r == Fail;
    } else if s[pos] == '{' || s[pos] == '[' {
      var obj := s[pos] == '{';
      var inner := Skip(s, pos + 1);
      var lead := s[pos + 1..inner];
      if inner < |s| && s[inner] == Close(obj) {
        EmptyTreeAccepted(s, pos, depth, count, obj, inner);
        assert r == Done(Tree(obj, lead, []), inner + 1);
      } else {
        assert ElemsText(obj, []) + "" + lead == lead;
        ElemsSound(s, pos, inner, depth, count, count + 1, obj, lead, []);
        assert r == ParseElems(s, inner, depth, count + 1, obj, lead, []);
      }
    } else {
      assert r == ParseLeaf(s, pos);
      if r.Done? {
        LeafSound(s, pos);
      }
    }
  }

  lemma {:induction false} ElemsSound(s: string, start: nat, pos: nat, depth: nat, first: nat, count: nat, obj: bool,
      lead: string, done: seq<Elem>)
    requires Progress(s, start, pos, depth, first, count, obj, lead, done)
    ensures Accepted(s, start, depth, first, ParseElems(s, pos, depth, count, obj, lead, done))
    decreases |s| - pos, 2
  {
    hide ParseValue, ParseRest, ParseNext, IsString, KeyName, KeyTaken, Accepted;
    var r := ParseElems(s, pos, depth, count, obj, lead, done);
    if !obj {
      var e := Elem(lead, "", "", "", Leaf(Null, ""), "");
      RestSound(s, start, pos, pos, depth, first, count, count, obj, e, done);
    } else if r.Done? {
      var end := ParseValue(s, pos, depth + 1, count).end;
      ValueSound(s, pos, depth + 1, count);
      var colon := Skip(s, end);
      var value := Skip(s, colon + 1);
      var e := Elem(lead, s[pos..end], s[end..colon], s[colon + 1..value], Leaf(Null, ""), "");
      ColonText(s, pos, end, colon, value);
      RestSound(s, start, pos, value, depth, first, count, count + 1, obj, e, done);
    } else {
      NotAccepted(s, start, depth, first);
    }
  }

  lemma NotAccepted(s: string, start: nat, depth: nat, count: nat)
    ensures Accepted(s, start, depth, count, Fail)
  {
  }

  lemma {:induction false} RestSound(s: string, start: nat, body: nat, pos: nat, depth: nat, first: nat, count0: nat,
      count: nat, obj: bool, e: Elem, done: seq<Elem>)
    requires Progress(s, start, body, depth, first, count0, obj, e.lead, done) && HeadAt(s, body, pos, obj, e, done)
    requires pos <= |s| && count == count0 + if obj then 1 else 0
    ensures Accepted(s, start, depth, first, ParseRest(s, pos, depth, count, obj, e, done))
    decreases |s| - pos, 1
  {
    hide *;
    var v := ParseValue(s, pos, depth + 1, count);
    ValueSound(s, pos, depth + 1, count);
    RestUnfolds(s, pos, depth, count, obj, e, done);
    if v.Fail? {
      NotAccepted(s, start, depth, first);
    } else {
      AcceptedParts(s, pos, depth + 1, count, v.node, v.end);
      ElementFinished(s, start, body, pos, v.end, depth, first, count0, count, obj, e, done, v.node);
      var next := Skip(s, v.end);
      NextSound(s, start, next, depth, first, count + Tokens(v.node), obj,
          done + [e.(value := v.node, after := s[v.end..next])]);
    }
  }

  lemma RestUnfolds(s: string, pos: nat, depth: nat, count: nat, obj: bool, e: Elem, done: seq<Elem>)
    requires pos <= |s|
    ensures var r := ParseRest(s, pos, depth, count, obj, e, done);
            match ParseValue(s, pos, depth + 1, count)
            case Fail => r == Fail
            case Done(v, end) =>
              var next := Skip(s, end);
              r == ParseNext(s, next, depth, count + Tokens(v), obj, done + [e.(value := v, after := s[end..next])])
  {
    hide ParseValue, ParseNext, Skip, Tokens;
  }

  /** Between start (the opening bracket) and pos lie the complete elements all, commas included. */
  ghost predicate Finished(s: string, start: nat, pos: nat, depth: nat, first: nat, count: nat, obj: bool,
      all: seq<Elem>) {
    && start < |s| && s[start] == Open(obj) && all != [] && pos <= |s|
    && At(s, start + 1, ElemsText(obj, all)) && pos == start + 1 + |ElemsText(obj, all)|
    && (forall i | 0 <= i < |all| :: WellFormedElem(obj, all[i]))
    && (obj ==> DistinctKeys(all))
    && depth + 1 + ElemsHeight(all) <= DEPTH_MAX
    && count == first + 1 + ElemsTokens(obj, all) && count <= TOKEN_MAX
  }

  /** The head of an element (all but its value and what follows it) lies between body and pos. */
  ghost predicate HeadAt(s: string, body: nat, pos: nat, obj: bool, e: Elem, done: seq<Elem>) {
    && body <= pos <= |s| && Blank(e.colonLead) && Blank(e.colonAfter)
    && (if obj then IsString(e.key) else e.key == "" && e.colonLead == "" && e.colonAfter == "")
    && s[body..pos] == (if obj then e.key + e.colonLead + ":" + e.colonAfter else "")
    && (obj ==> KeyName(e.key).Some? && !KeyTaken(done, KeyName(e.key)))
  }

  lemma ElementFinished(
      s: string, start: nat, body: nat, pos: nat, end: nat, depth: nat, first: nat, count0: nat, count: nat,
      obj: bool, e: Elem, done: seq<Elem>, v: Node)
    requires Progress(s, start, body, depth, first, count0, obj, e.lead, done) && HeadAt(s, body, pos, obj, e, done)
    requires pos < end <= |s| && count == count0 + if obj then 1 else 0
    requires WellFormed(v) && Fits(v, depth + 1, count) && s[pos..end] == Text(v)
    ensures var next := Skip(s, end);
            Finished(s, start, next, depth, first, count + Tokens(v), obj,
                done + [e.(value := v, after := s[end..next])])
  {
    hide IsString, KeyName, KeyTaken, DistinctKeys, Text, ElemBody, Height, Tokens, ElemsHeight, ElemsTokens, ElemsText,
        Open, WellFormed;
    var next := Skip(s, end);
    var full := e.(value := v, after := s[end..next]);
    BodyText(s, body, pos, end, next, obj, full);
    ProgressStep(s, start, body, depth, first, count0, obj, e.lead, done, full, next);
  }

  /** Behind a comma the next element begins. */
  lemma CommaProgress(s: string, start: nat, next: nat, depth: nat, first: nat, count: nat, obj: bool, all: seq<Elem>)
    requires Finished(s, start, next, depth, first, count, obj, all) && next < |s| && s[next] == ','
    ensures var after := Skip(s, next + 1); Progress(s, start, after, depth, first, count, obj, s[next + 1..after], all)
  {
    CommaText(s, start, obj, all, next, Skip(s, next + 1));
  }

  lemma {:induction false} NextSound(s: string, start: nat, next: nat, depth: nat, first: nat, count: nat, obj: bool,
      all: seq<Elem>)
    requires Finished(s, start, next, depth, first, count, obj, all)
    ensures Accepted(s, start, depth, first, ParseNext(s, next, depth, count, obj, all))
    decreases |s| - next, 3
  {
    if next < |s| && s[next] == Close(obj) {
      TreeAccepted(s, start, depth, first, obj, all, next);
    } else if next < |s| && s[next] == ',' {
      hide ParseValue, ParseElems, ParseRest, Accepted, Finished, Progress;
      var after := Skip(s, next + 1);
      CommaProgress(s, start, next, depth, first, count, obj, all);
      ElemsSound(s, start, after, depth, first, count, obj, s[next + 1..after], all);
    }
  }
}
