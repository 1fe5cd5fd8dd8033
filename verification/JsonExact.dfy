/** The parser accepts every text of the grammar within its bounds, and builds its only tree. */
module JsonExact {
  import opened Core
  import opened JsonText
  import opened JsonParser

  /** What may stand behind a value: the end, white space, or punctuation. */
  ghost predicate Follow(s: string, p: nat) {
    p >= |s| || IsSpace(s[p]) || s[p] == ',' || s[p] == ']' || s[p] == '}'
  }

  ghost predicate NoSpaceAt(s: string, p: nat) {
    p >= |s| || !IsSpace(s[p])
  }

  // ---- Scanning what the grammar wrote ----

  lemma {:induction false} SkipsBlank(s: string, pos: nat, w: string)
    requires At(s, pos, w) && Blank(w) && NoSpaceAt(s, pos + |w|)
    ensures Skip(s, pos) == pos + |w|
    decreases |w|
  {
    if w != "" {
      assert s[pos] == w[0];
      AtTail(s, pos, w, 1);
      SkipsBlank(s, pos + 1, w[1..]);
    }
  }

  lemma AtTail(s: string, pos: nat, t: string, k: nat)
    requires At(s, pos, t) && k <= |t|
    ensures At(s, pos + k, t[k..])
  {
    assert t == t[..k] + t[k..];
    AtConcat(s, pos, t[..k], t[k..]);
  }

  lemma {:induction false} TakesDigits(s: string, pos: nat, t: string)
    requires At(s, pos, t) && (t == "" || Digits(t)) && !DigitAt(s, pos + |t|)
    ensures DigitsEnd(s, pos) == pos + |t|
    decreases |t|
  {
    if t != "" {
      assert s[pos] == t[0];
      AtTail(s, pos, t, 1);
      TakesDigits(s, pos + 1, t[1..]);
    }
  }

  lemma ItemSizeStable(b: string, longer: string)
    requires b <= longer && ItemSize(b) > 0
    ensures ItemSize(longer) == ItemSize(b)
  {
  }

  lemma ItemStep(s: string, pos: nat, body: string)
    requires At(s, pos, body) && body != "" && StringBody(body)
    ensures ItemSize(body) > 0 && StringBody(body[ItemSize(body)..])
    ensures StringEnd(s, pos) == StringEnd(s, pos + ItemSize(body))
  {
    assert body <= s[pos..];
    ItemSizeStable(body, s[pos..]);
    hide ItemValue;
    assert s[pos] == body[0] != '"';
  }

  lemma QuoteEnds(s: string, pos: nat)
    requires At(s, pos, "\"")
    ensures pos < |s| && StringEnd(s, pos) == Some(pos + 1)
  {
    assert s[pos] == '"';
  }

  lemma {:induction false} TakesString(s: string, pos: nat, body: string)
    requires At(s, pos, body + "\"") && StringBody(body)
    ensures StringEnd(s, pos) == Some(pos + |body| + 1)
    decreases |body|
  {
    hide *;
    AtConcat(s, pos, body, "\"");
    if body == "" {
      QuoteEnds(s, pos);
    } else {
      var n := ItemSize(body);
      ItemStep(s, pos, body);
      AtTail(s, pos, body + "\"", n);
      assert (body + "\"")[n..] == body[n..] + "\"";
      TakesString(s, pos + n, body[n..]);
    }
  }

  lemma TakesWhole(s: string, pos: nat, t: string)
    requires At(s, pos, t) && IsInteger(t) && (t != "0" ==> !DigitAt(s, pos + |t|))
    ensures WholeEnd(s, pos) == Some(pos + |t|)
  {
    assert s[pos] == t[0];
    if t != "0" {
      TakesDigits(s, pos, t);
    }
  }

  lemma TakesFraction(s: string, pos: nat, t: string)
    requires At(s, pos, t) && IsFraction(t) && !DigitAt(s, pos + |t|)
    requires t == "" ==> pos >= |s| || s[pos] != '.'
    ensures FractionEnd(s, pos) == Some(pos + |t|)
  {
    if t != "" {
      assert s[pos] == t[0];
      AtTail(s, pos, t, 1);
      assert s[pos + 1] == t[1..][0];
      TakesDigits(s, pos + 1, t[1..]);
    }
  }

  lemma TakesExponent(s: string, pos: nat, t: string)
    requires At(s, pos, t) && IsExponent(t) && Follow(s, pos + |t|)
    ensures ExponentEnd(s, pos) == Some(pos + |t|)
  {
    if t != "" {
      assert s[pos] == t[0];
      AtTail(s, pos, t, 1);
      assert s[pos + 1] == t[1];
      if Digits(t[1..]) {
        assert t[1..][0] == t[1];
        TakesDigits(s, pos + 1, t[1..]);
      } else {
        AtTail(s, pos, t, 2);
        assert s[pos + 2] == t[2..][0];
        TakesDigits(s, pos + 2, t[2..]);
      }
    }
  }

  lemma NumberPlaced(s: string, pos: nat, t: string, sign: string, whole: string, fraction: string, exponent: string)
    requires At(s, pos, t) && NumberOf(t, sign, whole, fraction, exponent)
    ensures At(s, pos, sign) && At(s, pos + |sign|, whole) && At(s, pos + |sign| + |whole|, fraction)
    ensures At(s, pos + |sign| + |whole| + |fraction|, exponent)
  {
    AtConcat(s, pos, sign + whole + fraction, exponent);
    AtConcat(s, pos, sign + whole, fraction);
    AtConcat(s, pos, sign, whole);
  }

  lemma FirstAt(s: string, pos: nat, t: string)
    requires At(s, pos, t) && t != ""
    ensures pos < |s| && s[pos] == t[0]
  {
  }

  /** A number ends where it stops: nothing that may follow it could be read as part of it. */
  lemma TakesNumber(s: string, pos: nat, t: string)
    requires At(s, pos, t) && IsNumber(t) && Follow(s, pos + |t|)
    ensures t != "" && pos < |s| && (s[pos] == '-' || IsDigit(s[pos])) && NumberEnd(s, pos) == Some(pos + |t|)
  {
    var sign, whole, fraction, exponent :| NumberOf(t, sign, whole, fraction, exponent);
    NumberPlaced(s, pos, t, sign, whole, fraction, exponent);
    TakesNumberParts(s, pos, sign, whole, fraction, exponent);
  }

  lemma TakesNumberParts(s: string, pos: nat, sign: string, whole: string, fraction: string, exponent: string)
    requires At(s, pos, sign) && At(s, pos + |sign|, whole) && At(s, pos + |sign| + |whole|, fraction)
    requires At(s, pos + |sign| + |whole| + |fraction|, exponent)
    requires (sign == "" || sign == "-") && IsInteger(whole) && IsFraction(fraction) && IsExponent(exponent)
    requires Follow(s, pos + |sign| + |whole| + |fraction| + |exponent|)
    ensures pos < |s| && (s[pos] == '-' || IsDigit(s[pos]))
    ensures NumberEnd(s, pos) == Some(pos + |sign| + |whole| + |fraction| + |exponent|)
  {
    hide At, DigitsEnd, WholeEnd, FractionEnd, ExponentEnd, IsInteger, IsFraction, IsExponent, Follow, DigitAt;
    var start := pos + |sign|;
    var mid := start + |whole|;
    var late := mid + |fraction|;
    ExponentHead(s, late, exponent);
    FractionHead(s, mid, fraction);
    SignHead(s, pos, sign, whole);
    TakesWhole(s, start, whole);
    TakesFraction(s, mid, fraction);
    TakesExponent(s, late, exponent);
  }

  lemma ExponentHead(s: string, pos: nat, t: string)
    requires At(s, pos, t) && IsExponent(t) && Follow(s, pos + |t|)
    ensures !DigitAt(s, pos) && (pos >= |s| || s[pos] != '.')
  {
    if t != "" {
      FirstAt(s, pos, t);
    }
  }

  lemma FractionHead(s: string, pos: nat, t: string)
    requires At(s, pos, t) && IsFraction(t)
    requires !DigitAt(s, pos + |t|) && (pos + |t| >= |s| || s[pos + |t|] != '.')
    ensures !DigitAt(s, pos) && (t == "" ==> pos >= |s| || s[pos] != '.')
  {
    if t != "" {
      FirstAt(s, pos, t);
    }
  }

  lemma SignHead(s: string, pos: nat, sign: string, whole: string)
    requires At(s, pos, sign) && At(s, pos + |sign|, whole) && (sign == "" || sign == "-") && IsInteger(whole)
    ensures pos < |s| && (s[pos] == '-' || IsDigit(s[pos])) && pos + |sign| == if s[pos] == '-' then pos + 1 else pos
  {
    FirstAt(s, pos + |sign|, whole);
    if sign != "" {
      FirstAt(s, pos, sign);
    }
  }

  lemma TakesLeaf(s: string, pos: nat, kind: Kind, t: string)
    requires WellFormedLeaf(kind, t) && At(s, pos, t) && Follow(s, pos + |t|)
    ensures t != "" && pos < |s| && ParseLeaf(s, pos) == Done(Leaf(kind, t), pos + |t|)
    ensures s[pos] == '"' || s[pos] == '-' || IsDigit(s[pos]) || s[pos] == 't' || s[pos] == 'f' || s[pos] == 'n'
  {
    match kind
    case String =>
      TakesQuoted(s, pos, t);
    case Number =>
      TakesNumber(s, pos, t);
    case Boolean =>
      assert s[pos] == t[0];
    case Null =>
      assert s[pos] == t[0];
    case _ =>
  }

  lemma TakesQuoted(s: string, pos: nat, t: string)
    requires IsString(t) && At(s, pos, t)
    ensures pos < |s| && s[pos] == '"' && ParseLeaf(s, pos) == Done(Leaf(String, t), pos + |t|)
  {
    hide *;
    QuotedParts(t);
    FirstAt(s, pos, t);
    AtTail(s, pos, t, 1);
    TakesString(s, pos + 1, Inside(t));
    QuotedLeaf(s, pos, t);
  }

  lemma QuotedParts(t: string)
    requires IsString(t)
    ensures |t| >= 2 && t[0] == '"' && t[1..] == Inside(t) + "\"" && StringBody(Inside(t)) && |Inside(t)| == |t| - 2
  {
    hide StringBody;
  }

  lemma QuotedLeaf(s: string, pos: nat, t: string)
    requires At(s, pos, t) && t != "" && pos < |s| && s[pos] == '"' && StringEnd(s, pos + 1) == Some(pos + |t|)
    ensures ParseLeaf(s, pos) == Done(Leaf(String, t), pos + |t|)
  {
    hide StringEnd;
  }

  // ---- Trees ----

  /** The text of the elements from k on, without the lead of k, and the closing bracket. */
  ghost function Remainder(obj: bool, all: seq<Elem>, k: nat): string
    requires k < |all|
    decreases |all| - k, 1
  {
    ElemBody(obj, all[k]) + Tail(obj, all, k)
  }

  /** What stands behind element k. */
  ghost function Tail(obj: bool, all: seq<Elem>, k: nat): string
    requires k < |all|
    decreases |all| - k, 0
  {
    if k + 1 < |all| then "," + all[k + 1].lead + Remainder(obj, all, k + 1) else [Close(obj)]
  }

  lemma {:induction false} RemainderCompletes(obj: bool, all: seq<Elem>, k: nat)
    requires k < |all|
    ensures ElemsText(obj, all) + [Close(obj)]
         == ElemsText(obj, all[..k]) + (if k > 0 then "," else "") + all[k].lead + Remainder(obj, all, k)
    decreases |all| - k
  {
    var upTo := all[..k + 1];
    assert upTo[..k] == all[..k];
    var before := ElemsText(obj, all[..k]) + if k > 0 then "," else "";
    assert ElemsText(obj, upTo) == before + (all[k].lead + ElemBody(obj, all[k]));
    if k + 1 == |all| {
      assert upTo == all;
      Regroup(before, all[k].lead, ElemBody(obj, all[k]), [Close(obj)]);
    } else {
      RemainderCompletes(obj, all, k + 1);
      var rest := "," + all[k + 1].lead + Remainder(obj, all, k + 1);
      Regroup(before, all[k].lead, ElemBody(obj, all[k]), rest);
      Regroup(ElemsText(obj, upTo), ",", all[k + 1].lead, Remainder(obj, all, k + 1));
    }
  }

  lemma Regroup(a: string, b: string, c: string, d: string)
    ensures (a + (b + c)) + d == a + b + (c + d)
    ensures a + b + c + d == a + (b + c + d)
  {
  }

  lemma StartsValue(s: string, pos: nat, n: Node)
    requires WellFormed(n) && At(s, pos, Text(n))
    ensures Text(n) != "" && pos < |s| && !IsSpace(s[pos])
    ensures s[pos] != ']' && s[pos] != '}' && s[pos] != ',' && s[pos] != ':'
  {
    match n
    case Tree(obj, _, _) =>
      assert s[pos] == Text(n)[0] == Open(obj);
    case Leaf(kind, t) =>
      LeafFirst(kind, t);
      assert s[pos] == t[0];
  }

  lemma LeafFirst(kind: Kind, t: string)
    requires WellFormedLeaf(kind, t)
    ensures t != "" && (t[0] == '"' || t[0] == '-' || IsDigit(t[0]) || t[0] == 't' || t[0] == 'f' || t[0] == 'n')
  {
    if kind == Number {
      var sign, whole, fraction, exponent :| NumberOf(t, sign, whole, fraction, exponent);
      assert t[0] == (sign + whole)[0];
    }
  }

  lemma {:induction false} PartsBounded(obj: bool, all: seq<Elem>, k: nat)
    requires k < |all|
    ensures Height(all[k].value) <= ElemsHeight(all)
    ensures ElemsTokens(obj, all[..k]) + (if obj then 1 else 0) + Tokens(all[k].value) <= ElemsTokens(obj, all)
    ensures ElemsTokens(obj, all[..k + 1]) == ElemsTokens(obj, all[..k]) + (if obj then 1 else 0) + Tokens(all[k].value)
    decreases |all|
  {
    var n := |all| - 1;
    assert all[..k + 1][..k] == all[..k];
    if k == n {
      assert all[..k + 1] == all;
    } else {
      PartsBounded(obj, all[..n], k);
      assert all[..n][..k] == all[..k] && all[..n][..k + 1] == all[..k + 1];
    }
  }

  lemma {:induction false} ValueComplete(s: string, pos: nat, n: Node, depth: nat, count: nat)
    requires WellFormed(n) && Fits(n, depth, count) && At(s, pos, Text(n)) && Follow(s, pos + |Text(n)|)
    ensures ParseValue(s, pos, depth, count) == Done(n, pos + |Text(n)|)
    decreases n, 0
  {
    hide ParseElems, ParseRest, ParseNext, Skip, ParseLeaf, ElemsText, IsString, DistinctKeys, IsNumber;
    StartsValue(s, pos, n);
    match n
    case Leaf(kind, text) =>
      TakesLeaf(s, pos, kind, text);
    case Tree(obj, blank, elems) =>
      if elems == [] {
        EmptyTreeComplete(s, pos, obj, blank, depth, count);
      } else {
        AtConcat(s, pos, [Open(obj)], ElemsText(obj, elems) + [Close(obj)]);
        assert Text(n) == [Open(obj)] + (ElemsText(obj, elems) + [Close(obj)]);
        TreeComplete(s, pos, obj, elems, depth, count);
      }
  }

  lemma EmptyTreeComplete(s: string, pos: nat, obj: bool, blank: string, depth: nat, count: nat)
    requires Blank(blank) && depth <= DEPTH_MAX && count < TOKEN_MAX && At(s, pos, Text(Tree(obj, blank, [])))
    ensures ParseValue(s, pos, depth, count) == Done(Tree(obj, blank, []), pos + |Text(Tree(obj, blank, []))|)
  {
    AtConcat(s, pos, [Open(obj)] + blank, [Close(obj)]);
    AtConcat(s, pos, [Open(obj)], blank);
    assert s[pos] == Open(obj) && s[pos + 1 + |blank|] == Close(obj);
    SkipsBlank(s, pos + 1, blank);
  }

  /** Elements that are well formed and leave the parser within its bounds. */
  ghost predicate Fine(obj: bool, all: seq<Elem>, depth: nat, first: nat) {
    && (forall i | 0 <= i < |all| :: WellFormedElem(obj, all[i]))
    && (obj ==> DistinctKeys(all))
    && depth + 1 + ElemsHeight(all) <= DEPTH_MAX && first + 1 + ElemsTokens(obj, all) <= TOKEN_MAX
  }

  // One unfolding of each parsing function.

  lemma TreeStep(s: string, pos: nat, depth: nat, count: nat, obj: bool, inner: nat, lead: string)
    requires depth <= DEPTH_MAX && count < TOKEN_MAX && pos < |s| && s[pos] == Open(obj)
    requires Skip(s, pos + 1) == inner && inner < |s| && s[inner] != Close(obj) && s[pos + 1..inner] == lead
    ensures ParseValue(s, pos, depth, count) == ParseElems(s, inner, depth, count + 1, obj, lead, [])
  {
  }

  lemma MemberStep(s: string, pos: nat, depth: nat, count: nat, e: Elem, done: seq<Elem>, end: nat, colon: nat,
      value: nat)
    requires pos < end <= |s| && s[pos] == '"' && ParseValue(s, pos, depth + 1, count) == Done(Leaf(String, e.key), end)
    requires KeyName(e.key).Some? && !KeyTaken(done, KeyName(e.key))
    requires Skip(s, end) == colon && colon < |s| && s[colon] == ':' && Skip(s, colon + 1) == value
    requires s[pos..end] == e.key && s[end..colon] == e.colonLead && s[colon + 1..value] == e.colonAfter
    ensures ParseElems(s, pos, depth, count, true, e.lead, done)
        == ParseRest(s, value, depth, count + 1, true, Headed(e), done)
  {
    hide ParseValue, ParseRest, ParseNext, Skip, KeyName, KeyTaken, IsString;
  }

  lemma RestStep(s: string, pos: nat, depth: nat, count: nat, obj: bool, e: Elem, done: seq<Elem>, end: nat, next: nat)
    requires pos <= |s| && ParseValue(s, pos, depth + 1, count) == Done(e.value, end) && end <= |s|
        && Skip(s, end) == next
    requires s[end..next] == e.after
    ensures ParseRest(s, pos, depth, count, obj, Headed(e), done)
         == ParseNext(s, next, depth, count + Tokens(e.value), obj, done + [e])
  {
    hide ParseValue, ParseNext, Skip, Tokens;
  }

  lemma CommaStep(s: string, next: nat, depth: nat, count: nat, obj: bool, all: seq<Elem>, start: nat, lead: string)
    requires next < |s| && s[next] == ',' && Skip(s, next + 1) == start && s[next + 1..start] == lead
    ensures ParseNext(s, next, depth, count, obj, all) == ParseElems(s, start, depth, count, obj, lead, all)
  {
  }

  function Headed(e: Elem): Elem {
    Elem(e.lead, e.key, e.colonLead, e.colonAfter, Leaf(Null, ""), "")
  }

  lemma {:induction false} TreeComplete(s: string, pos: nat, obj: bool, all: seq<Elem>, depth: nat, count: nat)
    requires all != [] && Fine(obj, all, depth, count)
    requires pos < |s| && s[pos] == Open(obj) && At(s, pos + 1, ElemsText(obj, all) + [Close(obj)])
    ensures ParseValue(s, pos, depth, count) == Done(Tree(obj, "", all), pos + |ElemsText(obj, all)| + 2)
    decreases all, |all| + 1
  {
    hide ParseValue, ParseElems, ParseRest, ParseNext, Skip, ElemsText, Remainder, ElemBody, Text, IsString, KeyName,
         WellFormed, DistinctKeys;
    FirstLead(obj, all);
    AtConcat(s, pos + 1, all[0].lead, Remainder(obj, all, 0));
    var inner := pos + 1 + |all[0].lead|;
    RemainderStarts(s, inner, obj, all, 0);
    SkipsBlank(s, pos + 1, all[0].lead);
    TreeStep(s, pos, depth, count, obj, inner, all[0].lead);
    ElemsComplete(s, inner, obj, all, 0, depth, count, count + 1);
  }

  lemma FirstLead(obj: bool, all: seq<Elem>)
    requires all != []
    ensures ElemsText(obj, all) + [Close(obj)] == all[0].lead + Remainder(obj, all, 0)
    ensures all[..0] == [] && ElemsTokens(obj, all[..0]) == 0
  {
    RemainderCompletes(obj, all, 0);
  }

  lemma RemainderStarts(s: string, pos: nat, obj: bool, all: seq<Elem>, k: nat)
    requires k < |all| && WellFormedElem(obj, all[k]) && At(s, pos, Remainder(obj, all, k))
    ensures At(s, pos, ElemBody(obj, all[k]))
    ensures pos < |s| && !IsSpace(s[pos]) && s[pos] != Close(obj) && (obj ==> s[pos] == '"')
  {
    var tail := Tail(obj, all, k);
    AtConcat(s, pos, ElemBody(obj, all[k]), tail);
    BodyStarts(s, pos, obj, all[k], tail);
  }

  /** An element without its lead starts with neither white space nor a closing bracket. */
  lemma BodyStarts(s: string, pos: nat, obj: bool, e: Elem, rest: string)
    requires WellFormedElem(obj, e) && At(s, pos, ElemBody(obj, e) + rest)
    ensures pos < |s| && !IsSpace(s[pos]) && s[pos] != Close(obj) && (obj ==> s[pos] == '"')
  {
    hide At, Text, ElemBody, WellFormed, WellFormedElem, IsString;
    AtConcat(s, pos, ElemBody(obj, e), rest);
    BodyParts(obj, e);
    if obj {
      KeyPlaced(s, pos, e);
      FirstAt(s, pos, e.key);
    } else {
      AtConcat(s, pos, Text(e.value), e.after);
      StartsValue(s, pos, e.value);
    }
  }

  lemma BodyParts(obj: bool, e: Elem)
    requires WellFormedElem(obj, e)
    ensures WellFormed(e.value) && (obj ==> e.key != "" && e.key[0] == '"')
    ensures !obj ==> ElemBody(obj, e) == Text(e.value) + e.after
  {
    hide WellFormed, Text;
    if !obj {
      assert ElemBody(obj, e) == Text(e.value) + e.after;
    }
  }

  lemma KeyPlaced(s: string, pos: nat, e: Elem)
    requires At(s, pos, ElemBody(true, e))
    ensures var colon := pos + |e.key| + |e.colonLead|;
            var value := colon + 1 + |e.colonAfter|;
            && At(s, pos, e.key) && At(s, pos + |e.key|, e.colonLead) && At(s, colon, ":")
            && At(s, colon + 1, e.colonAfter) && At(s, value, Text(e.value)) && At(s, value + |Text(e.value)|, e.after)
  {
    var head := e.key + e.colonLead + ":" + e.colonAfter;
    AtConcat(s, pos, head + Text(e.value), e.after);
    AtConcat(s, pos, head, Text(e.value));
    AtConcat(s, pos, e.key + e.colonLead + ":", e.colonAfter);
    AtConcat(s, pos, e.key + e.colonLead, ":");
    AtConcat(s, pos, e.key, e.colonLead);
  }

  /** Where the value of an element starts, if the element without its lead starts at pos. */
  function ValueStart(obj: bool, pos: nat, e: Elem): nat {
    if obj then pos + |e.key| + |e.colonLead| + 1 + |e.colonAfter| else pos
  }

  lemma ValuePlaced(s: string, pos: nat, obj: bool, e: Elem)
    requires At(s, pos, ElemBody(obj, e))
    ensures var value := ValueStart(obj, pos, e);
            && At(s, value, Text(e.value)) && At(s, value + |Text(e.value)|, e.after)
            && value + |Text(e.value)| + |e.after| == pos + |ElemBody(obj, e)|
  {
    if obj {
      KeyPlaced(s, pos, e);
    } else {
      assert ElemBody(obj, e) == Text(e.value) + e.after;
      AtConcat(s, pos, Text(e.value), e.after);
    }
  }

  /** From the start of an element to its value: past the key and the colon of a member. */
  lemma ReachesValue(s: string, pos: nat, obj: bool, e: Elem, done: seq<Elem>, depth: nat, count: nat)
    requires WellFormedElem(obj, e) && At(s, pos, ElemBody(obj, e))
    requires obj ==> KeyName(e.key).Some? && !KeyTaken(done, KeyName(e.key))
    requires depth < DEPTH_MAX && count < TOKEN_MAX
    ensures ValueStart(obj, pos, e) <= |s|
    ensures ParseElems(s, pos, depth, count, obj, e.lead, done)
         == ParseRest(s, ValueStart(obj, pos, e), depth, count + (if obj then 1 else 0), obj, Headed(e), done)
  {
    hide ParseValue, ParseRest, ParseNext, Skip, KeyName, KeyTaken, IsString;
    if obj {
      KeyPlaced(s, pos, e);
      StartsValue(s, ValueStart(obj, pos, e), e.value);
      KeyParsed(s, pos, e, done, depth, count, pos + |e.key|, pos + |e.key| + |e.colonLead|, ValueStart(obj, pos, e));
    } else {
      assert Headed(e) == Elem(e.lead, "", "", "", Leaf(Null, ""), "");
    }
  }

  lemma KeyParsed(s: string, pos: nat, e: Elem, done: seq<Elem>, depth: nat, count: nat, end: nat, colon: nat,
      value: nat)
    requires end == pos + |e.key| && colon == end + |e.colonLead| && value == colon + 1 + |e.colonAfter|
    requires At(s, pos, e.key) && At(s, end, e.colonLead) && At(s, colon, ":") && At(s, colon + 1, e.colonAfter)
    requires IsString(e.key) && Blank(e.colonLead) && Blank(e.colonAfter) && NoSpaceAt(s, value)
    requires KeyName(e.key).Some? && !KeyTaken(done, KeyName(e.key))
    requires depth < DEPTH_MAX && count < TOKEN_MAX
    ensures value <= |s|
    ensures ParseElems(s, pos, depth, count, true, e.lead, done)
        == ParseRest(s, value, depth, count + 1, true, Headed(e), done)
  {
    hide ParseElems, ParseRest, ParseNext, Skip, KeyName, KeyTaken, IsString;
    FirstAt(s, colon, ":");
    TakesQuoted(s, pos, e.key);
    SkipsBlank(s, end, e.colonLead);
    SkipsBlank(s, colon + 1, e.colonAfter);
    MemberStep(s, pos, depth, count, e, done, end, colon, value);
  }

  /** From the value of an element to what stands behind the element. */
  lemma {:induction false} ReachesNext(s: string, value: nat, obj: bool, e: Elem, done: seq<Elem>, grown: seq<Elem>,
      depth: nat, count: nat)
    requires WellFormedElem(obj, e) && Fits(e.value, depth + 1, count) && grown == done + [e]
    requires At(s, value, Text(e.value)) && At(s, value + |Text(e.value)|, e.after)
    requires Follow(s, value + |Text(e.value)| + |e.after|) && NoSpaceAt(s, value + |Text(e.value)| + |e.after|)
    ensures ParseRest(s, value, depth, count, obj, Headed(e), done)
         == ParseNext(s, value + |Text(e.value)| + |e.after|, depth, count + Tokens(e.value), obj, grown)
    decreases e, 0
  {
    hide ParseValue, ParseElems, ParseRest, ParseNext;
    var end := value + |Text(e.value)|;
    AfterFollows(s, end, e);
    ValueComplete(s, value, e.value, depth + 1, count);
    SkipsBlank(s, end, e.after);
    RestStep(s, value, depth, count, obj, e, done, end, end + |e.after|);
  }

  lemma AfterFollows(s: string, end: nat, e: Elem)
    requires At(s, end, e.after) && Blank(e.after) && Follow(s, end + |e.after|)
    ensures Follow(s, end)
  {
    if e.after != "" {
      FirstAt(s, end, e.after);
    }
  }

  lemma PrefixGrows(all: seq<Elem>, k: nat)
    requires k < |all|
    ensures all[..k] + [all[k]] == all[..k + 1]
  {
  }

  /** One element from its start to what stands behind it. */
  lemma {:induction false} ElemComplete(s: string, pos: nat, obj: bool, all: seq<Elem>, k: nat, depth: nat, count: nat)
    requires k < |all| && WellFormedElem(obj, all[k]) && (obj ==> DistinctKeys(all))
    requires depth < DEPTH_MAX && count < TOKEN_MAX && Fits(all[k].value, depth + 1, count + if obj then 1 else 0)
    requires At(s, pos, ElemBody(obj, all[k]))
    requires Follow(s, pos + |ElemBody(obj, all[k])|) && NoSpaceAt(s, pos + |ElemBody(obj, all[k])|)
    ensures ParseElems(s, pos, depth, count, obj, all[k].lead, all[..k])
         == ParseNext(s, pos + |ElemBody(obj, all[k])|, depth, count + (if obj then 1 else 0) + Tokens(all[k].value),
             obj, all[..k + 1])
    decreases all, |all| - k, 0
  {
    hide ParseValue, ParseElems, ParseRest, ParseNext;
    var e := all[k];
    ValuePlaced(s, pos, obj, e);
    PrefixGrows(all, k);
    if obj {
      assert !KeyTaken(all[..k], KeyName(e.key));
    }
    ReachesValue(s, pos, obj, e, all[..k], depth, count);
    ReachesNext(s, ValueStart(obj, pos, e), obj, e, all[..k], all[..k + 1], depth, count + if obj then 1 else 0);
  }

  lemma {:induction false} ElemsComplete(s: string, pos: nat, obj: bool, all: seq<Elem>, k: nat, depth: nat, first: nat,
      count: nat)
    requires k < |all| && Fine(obj, all, depth, first) && count == first + 1 + ElemsTokens(obj, all[..k])
    requires At(s, pos, Remainder(obj, all, k))
    ensures ParseElems(s, pos, depth, count, obj, all[k].lead, all[..k])
         == Done(Tree(obj, "", all), pos + |Remainder(obj, all, k)|)
    decreases all, |all| - k, 2
  {
    hide ParseValue, ParseElems, ParseRest, ParseNext, ElemBody, WellFormedElem, DistinctKeys, Text, Tokens, Height;
    var next := pos + |ElemBody(obj, all[k])|;
    AtConcat(s, pos, ElemBody(obj, all[k]), Tail(obj, all, k));
    PartsBounded(obj, all, k);
    TailFollows(s, next, obj, all, k);
    ElemComplete(s, pos, obj, all, k, depth, count);
    NextComplete(s, next, obj, all, k, depth, first, first + 1 + ElemsTokens(obj, all[..k + 1]));
  }

  lemma TailFollows(s: string, next: nat, obj: bool, all: seq<Elem>, k: nat)
    requires k < |all| && At(s, next, Tail(obj, all, k))
    ensures next < |s| && Follow(s, next) && !IsSpace(s[next])
    ensures s[next] == if k + 1 < |all| then ',' else Close(obj)
  {
    FirstAt(s, next, Tail(obj, all, k));
  }

  lemma {:induction false} NextComplete(s: string, next: nat, obj: bool, all: seq<Elem>, k: nat, depth: nat, first: nat,
      count: nat)
    requires k < |all| && Fine(obj, all, depth, first) && count == first + 1 + ElemsTokens(obj, all[..k + 1])
    requires At(s, next, Tail(obj, all, k))
    ensures ParseNext(s, next, depth, count, obj, all[..k + 1]) == Done(Tree(obj, "", all), next + |Tail(obj, all, k)|)
    decreases all, |all| - k, 1
  {
    hide *;
    if k + 1 == |all| {
      LastCloses(s, next, obj, all, k, depth, first, count);
    } else {
      var lead := all[k + 1].lead;
      var start := next + 1 + |lead|;
      CommaReaches(s, next, obj, all, k, depth, first);
      CommaStep(s, next, depth, count, obj, all[..k + 1], start, lead);
      ElemsComplete(s, start, obj, all, k + 1, depth, first, count);
    }
  }

  lemma LastCloses(s: string, next: nat, obj: bool, all: seq<Elem>, k: nat, depth: nat, first: nat, count: nat)
    requires k + 1 == |all| && Fine(obj, all, depth, first) && At(s, next, Tail(obj, all, k))
    ensures next < |s| && ParseNext(s, next, depth, count, obj, all[..k + 1])
        == Done(Tree(obj, "", all), next + |Tail(obj, all, k)|)
  {
    hide ParseValue, ParseElems, ParseRest, Skip, ElemBody, Text, Tokens, DistinctKeys, Height;
    TailFollows(s, next, obj, all, k);
    assert all[..k + 1] == all;
  }

  lemma CommaReaches(s: string, next: nat, obj: bool, all: seq<Elem>, k: nat, depth: nat, first: nat)
    requires k + 1 < |all| && Fine(obj, all, depth, first) && At(s, next, Tail(obj, all, k))
    ensures var lead, rest := all[k + 1].lead, Remainder(obj, all, k + 1);
            var start := next + 1 + |lead|;
            && start <= |s| && At(s, start, rest) && next + |Tail(obj, all, k)| == start + |rest|
            && s[next] == ',' && Skip(s, next + 1) == start && s[next + 1..start] == lead
  {
    hide Skip, ElemBody, Text, Tokens, DistinctKeys, Height, Remainder;
    var lead := all[k + 1].lead;
    var start := next + 1 + |lead|;
    AtConcat(s, next, "," + lead, Remainder(obj, all, k + 1));
    AtConcat(s, next, ",", lead);
    RemainderStarts(s, start, obj, all, k + 1);
    SkipsBlank(s, next + 1, lead);
  }

  // ---- The whole text ----

  /** The reader's language: one well-formed value within the bounds, with white space around it. */
  ghost predicate Reads(s: string, before: string, n: Node, after: string) {
    && s == before + Text(n) + after && 1 <= |s| <= INPUT_MAX
    && Blank(before) && Blank(after) && WellFormed(n) && Fits(n, 0, 0)
  }

  lemma ReadsIsParsed(s: string, before: string, n: Node, after: string)
    requires Reads(s, before, n, after)
    ensures ParseText(s) == Done(n, |before| + |Text(n)|)
  {
    hide ParseValue, Skip, Text, WellFormed, Fits;
    AtConcat(s, 0, before + Text(n), after);
    AtConcat(s, 0, before, Text(n));
    assert s[0..|s|] == s;
    var end := |before| + |Text(n)|;
    StartsValue(s, |before|, n);
    SkipsBlank(s, 0, before);
    if after != "" {
      FirstAt(s, end, after);
    }
    ValueComplete(s, |before|, n, 0, 0);
    SkipsBlank(s, end, after);
  }

  lemma ThreeSlices(s: string, a: nat, b: nat)
    requires a <= b <= |s|
    ensures s == s[..a] + s[a..b] + s[b..] && s[0..a] == s[..a] && s[b..|s|] == s[b..]
  {
  }

  lemma ParsedReads(s: string)
    requires ParseText(s).Done?
    ensures var end := ParseText(s).end;
            Reads(s, s[..Skip(s, 0)], ParseText(s).node, s[end..])
  {
    var start, r := Skip(s, 0), ParseText(s);
    ValueSound(s, start, 0, 0);
    assert r == ParseValue(s, start, 0, 0) && Skip(s, r.end) == |s|;
    ThreeSlices(s, start, r.end);
  }

  /** The parser accepts exactly the language of the grammar, and finds the only tree for a text. */
  lemma ParseExactly(s: string)
    ensures ParseText(s).Done? <==> exists before, n, after :: Reads(s, before, n, after)
    ensures forall before, n, after | Reads(s, before, n, after) :: ParseText(s).Done? && ParseText(s).node == n
  {
    if ParseText(s).Done? {
      ParsedReads(s);
    }
    forall before, n, after | Reads(s, before, n, after) ensures ParseText(s).Done? && ParseText(s).node == n {
      ReadsIsParsed(s, before, n, after);
    }
  }
}
