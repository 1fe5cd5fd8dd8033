/** The bounded JSON reader that fills a token array in place, against the parsing functions. */
module JsonReader {
  import opened Core
  import opened JsonText
  import opened JsonParser
  import opened JsonTokens
  import opened JsonExact

  const NUL: char := 0 as char
  const NO_TOKEN: Token := Token(0, 0, 0, Object)

  /** The integer a number token stands for: digits only, and within 64 bits. */
  function IntegerOf(t: string): Option<int> {
    var digits := if t != "" && t[0] == '-' then t[1..] else t;
    if digits == "" || !AllDigits(digits) then None
    else
      var size: int := DigitsValue(digits);
      var n := if t[0] == '-' then -size else size;
      if -0x8000_0000_0000_0000 <= n < 0x8000_0000_0000_0000 then Some(n) else None
  }

  predicate AllDigits(t: string) {
    forall i | 0 <= i < |t| :: IsDigit(t[i])
  }

  function DigitsValue(t: string): nat
    requires AllDigits(t)
  {
    if t == "" then 0 else DigitsValue(t[..|t| - 1]) * 10 + (t[|t| - 1] - '0') as nat
  }

  /** The characters in front of the terminator. */
  function CString(s: string): string {
    if s == "" || s[0] == NUL then "" else [s[0]] + CString(s[1..])
  }

  /** What a buffer of this capacity can take of a string token. */
  function Readable(t: string, capacity: nat): Option<string> {
    if |t| < 2 then None
    else
      var v := Decode(Inside(t));
      if v.Some? && |v.value| < capacity then v else None
  }

  function Prepend(head: string, tail: Option<string>): Option<string> {
    if tail.None? then None else Some(head + tail.value)
  }

  lemma PrependNothing(v: Option<string>)
    ensures Prepend("", v) == v
  {
    if v.Some? {
      assert "" + v.value == v.value;
    }
  }

  /** One item further into a string of which head is decoded already. */
  lemma DecodeStep(body: string, k: nat, head: string)
    requires k < |body| && StringBody(body[k..]) && Decode(body) == Prepend(head, Decode(body[k..]))
    ensures var size := ItemSize(body[k..]);
            && size > 0 && k + size <= |body| && StringBody(body[k + size..])
            && match ItemValue(body[k..])
               case None => Decode(body).None?
               case Some(c) => Decode(body) == Prepend(head + [c], Decode(body[k + size..]))
    ensures Decode(body).Some? ==> |Decode(body).value| > |head|
  {
    var size, rest := ItemSize(body[k..]), body[k..];
    assert rest[size..] == body[k + size..];
    var tail := Decode(body[k + size..]);
    if ItemValue(rest).Some? && tail.Some? {
      var c := ItemValue(rest).value;
      assert head + ([c] + tail.value) == (head + [c]) + tail.value;
    }
  }

  lemma {:induction false} DecodeNonzero(b: string)
    ensures Decode(b).Some? ==> forall i | 0 <= i < |Decode(b).value| :: 0 as char < Decode(b).value[i] < 128 as char
    decreases |b|
  {
    if b != "" && ItemSize(b) > 0 {
      DecodeNonzero(b[ItemSize(b)..]);
    }
  }

  lemma DecodeNothing(head: string)
    ensures Prepend(head, Decode("")) == Some(head)
  {
    assert head + "" == head;
  }

  lemma Terminated(s: string, body: string, n: nat)
    requires n < |s| && s[n] == NUL && Decode(body) == Some(s[..n])
    ensures CString(s) == Decode(body).value
  {
    DecodeNonzero(body);
    forall i | 0 <= i < n ensures s[i] != NUL {
      assert s[i] == s[..n][i];
    }
    CStringOf(s, n);
  }

  lemma {:induction false} CStringOf(s: string, n: nat)
    requires n < |s| && s[n] == NUL && forall i | 0 <= i < n :: s[i] != NUL
    ensures CString(s) == s[..n]
    decreases n
  {
    if n > 0 {
      CStringOf(s[1..], n - 1);
      assert s[..n] == [s[0]] + s[1..][..n - 1];
    }
  }

  // ---- Copying a string ----

  /** The part of the token before i is decoded, as head. */
  ghost predicate Halfway(s: string, head: string, i: nat) {
    && 1 <= i < |s| && StringBody(Inside(s)[i - 1..])
    && Decode(Inside(s)) == Prepend(head, Decode(Inside(s)[i - 1..]))
  }

  lemma CopyStart(s: string)
    requires IsString(s)
    ensures |s| >= 2 && Halfway(s, "", 1)
  {
    assert Inside(s)[0..] == Inside(s);
    PrependNothing(Decode(Inside(s)));
  }

  lemma CopyNext(s: string, head: string, i: nat, capacity: nat)
    requires Halfway(s, head, i) && i + 1 < |s|
    ensures var size := ItemSize(s[i..|s| - 1]);
            && size > 0 && i + size < |s|
            && match ItemValue(s[i..|s| - 1])
               case None => Readable(s, capacity).None?
               case Some(c) => Halfway(s, head + [c], i + size)
    ensures |head| + 1 >= capacity ==> Readable(s, capacity).None?
  {
    hide Decode, StringBody, ItemSize, ItemValue, Prepend;
    assert Inside(s)[i - 1..] == s[i..|s| - 1];
    DecodeStep(Inside(s), i - 1, head);
  }

  lemma CopyEnd(s: string, out: string, n: nat, i: nat)
    requires n < |out| && out[n] == NUL && Halfway(s, out[..n], i) && i + 1 >= |s|
    ensures Readable(s, |out|) == Some(CString(out))
  {
    hide StringBody, CString, Prepend, Decode;
    assert Inside(s)[i - 1..] == "";
    DecodeNothing(out[..n]);
    Terminated(out, Inside(s), n);
  }

  // ---- Walking along the members ----

  lemma NoTokens(elems: seq<Elem>)
    ensures ElemsTokens(true, elems[..0]) == 0
  {
  }

  lemma TokensAhead(elems: seq<Elem>, k: nat)
    requires k <= |elems|
    ensures ElemsTokens(true, elems[..k]) < ElemsTokens(true, elems) <==> k < |elems|
  {
    if k < |elems| {
      PartsBounded(true, elems, k);
    } else {
      assert elems[..k] == elems;
    }
  }

  lemma SameText(input: string, start: nat, t: string)
    requires At(input, start, t)
    ensures start + |t| <= |input| && input[start..start + |t|] == t
  {
  }

  lemma ReadableKey(key: string)
    ensures Readable(key, KEY_MAX + 1) == KeyName(key)
  {
  }

  // ---- One unfolding of the parser at a time ----

  lemma NextStep(s: string, next: nat, depth: nat, count: nat, obj: bool, all: seq<Elem>)
    requires next <= |s|
    ensures var r := ParseNext(s, next, depth, count, obj, all);
            if next == |s| then r == Fail
            else if s[next] == Close(obj) then r == Done(Tree(obj, "", all), next + 1)
            else if s[next] != ',' then r == Fail
            else var start := Skip(s, next + 1); r == ParseElems(s, start, depth, count, obj, s[next + 1..start], all)
  {
    hide ParseElems, Skip;
  }

  lemma FinishedNumbers(s: string, start: nat, pos: nat, depth: nat, first: nat, count: nat, obj: bool, all: seq<Elem>)
    requires Finished(s, start, pos, depth, first, count, obj, all)
    ensures count == first + Tokens(Tree(obj, "", all))
  {
    hide ElemsTokens;
  }

  lemma HeadLength(s: string, body: nat, pos: nat, obj: bool, e: Elem, done: seq<Elem>)
    requires HeadAt(s, body, pos, obj, e, done)
    ensures pos <= |s| && pos == body + if obj then |e.key| + |e.colonLead| + 1 + |e.colonAfter| else 0
  {
    assert |s[body..pos]| == pos - body;
  }

  /** The key between pos and end is usable, and a colon follows it. */
  predicate KeyFine(s: string, pos: nat, end: nat, done: seq<Elem>)
    requires pos <= end <= |s|
  {
    && KeyName(s[pos..end]).Some? && !KeyTaken(done, KeyName(s[pos..end]))
    && Skip(s, end) < |s| && s[Skip(s, end)] == ':'
  }

  lemma KeyUnfolds(s: string, pos: nat, depth: nat, count: nat, lead: string, done: seq<Elem>)
    requires pos <= |s|
    ensures var r := ParseElems(s, pos, depth, count, true, lead, done);
            if pos == |s| || s[pos] != '"' then r == Fail
            else match ParseValue(s, pos, depth + 1, count)
                 case Fail => r == Fail
                 case Done(_, end) =>
                   if !KeyFine(s, pos, end, done) then r == Fail
                   else
                     var e := KeyElem(s, pos, end, Skip(s, end), Skip(s, Skip(s, end) + 1), lead);
                     r == ParseRest(s, Skip(s, Skip(s, end) + 1), depth, count + 1, true, e, done)
  {
    hide ParseValue, ParseRest, ParseNext, KeyTaken, KeyName, Skip;
  }

  lemma KeyMissing(s: string, pos: nat, depth: nat, count: nat, lead: string, done: seq<Elem>)
    requires pos <= |s|
    requires pos == |s| || s[pos] != '"'
          || !(var r := ParseValue(s, pos, depth + 1, count);
               r.Done? && KeyName(s[pos..r.end]).Some? && !KeyTaken(done, KeyName(s[pos..r.end])))
          || (var colon := Skip(s, ParseValue(s, pos, depth + 1, count).end); colon == |s| || s[colon] != ':')
    ensures ParseElems(s, pos, depth, count, true, lead, done) == Fail
  {
    hide ParseValue, ParseElems, KeyTaken, KeyName, Skip;
    KeyUnfolds(s, pos, depth, count, lead, done);
  }

  lemma KeyPresent(s: string, pos: nat, depth: nat, count: nat, lead: string, done: seq<Elem>, end: nat, colon: nat,
      value: nat)
    requires pos < |s| && s[pos] == '"' && pos <= end <= |s|
    requires var r := ParseValue(s, pos, depth + 1, count); r.Done? && r.end == end
    requires IsString(s[pos..end]) && KeyName(s[pos..end]).Some? && !KeyTaken(done, KeyName(s[pos..end]))
    requires colon == Skip(s, end) && colon < |s| && s[colon] == ':' && value == Skip(s, colon + 1)
    ensures end <= colon < value <= |s|
    ensures var e := KeyElem(s, pos, end, colon, value, lead);
            && ParseElems(s, pos, depth, count, true, lead, done)
                == ParseRest(s, value, depth, count + 1, true, e, done)
            && HeadAt(s, pos, value, true, e, done) && e == Headed(e) && e.lead == lead && e.key == s[pos..end]
  {
    hide ParseValue, ParseElems, ParseRest, KeyTaken, KeyName, Skip, HeadAt, IsString;
    KeyUnfolds(s, pos, depth, count, lead, done);
    KeyRead(s, pos, end, colon, value, lead, done);
  }

  function KeyElem(s: string, pos: nat, end: nat, colon: nat, value: nat, lead: string): Elem
    requires pos <= end <= colon < value <= |s|
  {
    Elem(lead, s[pos..end], s[end..colon], s[colon + 1..value], Leaf(Null, ""), "")
  }

  lemma ArrayStep(s: string, pos: nat, depth: nat, count: nat, lead: string, done: seq<Elem>)
    requires pos <= |s|
    ensures ParseElems(s, pos, depth, count, false, lead, done)
         == ParseRest(s, pos, depth, count, false, Elem(lead, "", "", "", Leaf(Null, ""), ""), done)
    ensures HeadAt(s, pos, pos, false, Elem(lead, "", "", "", Leaf(Null, ""), ""), done)
  {
    hide ParseValue, ParseRest, ParseNext;
  }

  lemma RestFails(s: string, pos: nat, depth: nat, count: nat, obj: bool, e: Elem, done: seq<Elem>)
    requires pos <= |s| && ParseValue(s, pos, depth + 1, count).Fail?
    ensures ParseRest(s, pos, depth, count, obj, e, done) == Fail
  {
    hide ParseValue, ParseNext;
  }

  /** A value that begins with a quote is a string. */
  lemma KeyLeaf(s: string, pos: nat, depth: nat, count: nat)
    requires pos < |s| && s[pos] == '"' && ParseValue(s, pos, depth, count).Done?
    ensures var end := ParseValue(s, pos, depth, count).end;
            ParseValue(s, pos, depth, count) == Done(Leaf(String, s[pos..end]), end) && IsString(s[pos..end])
  {
    hide ParseElems, IsString, StringEnd;
    LeafSound(s, pos);
  }

  lemma HoldsBehind(before: seq<Token>, after: seq<Token>, first: nat, ts: seq<Token>)
    requires Holds(before, first, ts) && |after| == |before| && forall i | first <= i < |before| ::
        after[i] == before[i]
    ensures Holds(after, first, ts)
  {
  }

  lemma NoTokensHeld(tokens: seq<Token>, obj: bool, start: nat, first: nat)
    requires first <= |tokens|
    ensures Holds(tokens, first, ElemsTokenList(obj, [], start, first))
  {
  }

  lemma HoldsKept(before: seq<Token>, after: seq<Token>, first: nat, ts: seq<Token>)
    requires Holds(before, first, ts) && first + |ts| <= |after|
    requires forall i | 0 <= i < first + |ts| :: after[i] == before[i]
    ensures Holds(after, first, ts)
  {
  }

  /** The tokens of the finished elements, of a key and of the value behind it make those of one element more. */
  lemma ElementHeld(tokens: seq<Token>, start: nat, t: nat, body: nat, count: nat, pos: nat, obj: bool, e: Elem,
      done: seq<Elem>)
    requires body == ElemStart(obj, done, start + 1, |done|) + |e.lead| && count == t + 1 + ElemsTokens(obj, done)
    requires pos == body + if obj then |e.key| + |e.colonLead| + 1 + |e.colonAfter| else 0
    requires Holds(tokens, t + 1, ElemsTokenList(obj, done, start + 1, t + 1))
    requires obj ==> count < |tokens| && tokens[count] == Token(body, |e.key|, count + 1, String)
    requires var v := if obj then count + 1 else count; Holds(tokens, v, NodeTokens(e.value, pos, v))
    ensures Holds(tokens, t + 1, ElemsTokenList(obj, done + [e], start + 1, t + 1))
  {
    hide Holds, NodeTokens, Tokens, ElemsTokenList, ElemsText, ElemStart, ElemsTokens;
    var at := ElemStart(obj, done, start + 1, |done|);
    TokensGrow(obj, done, e, start + 1, t + 1);
    if obj {
      KeyTokenHeld(tokens, count, Token(body, |e.key|, count + 1, String));
      HoldsConcat(tokens, count, [Token(body, |e.key|, count + 1, String)], NodeTokens(e.value, pos, count + 1));
    }
    HoldsConcat(tokens, t + 1, ElemsTokenList(obj, done, start + 1, t + 1), ElemTokenList(obj, e, at, count));
  }

  lemma KeyTokenHeld(tokens: seq<Token>, first: nat, x: Token)
    requires first < |tokens| && tokens[first] == x
    ensures Holds(tokens, first, [x])
  {
  }

  lemma NodeHeld(tokens: seq<Token>, n: Node, start: nat, t: nat)
    requires t < |tokens|
    requires tokens[t] == Token(start, |Text(n)|, t + Tokens(n), if n.Tree? then TreeKind(n.obj) else n.kind)
    requires n.Tree? ==> Holds(tokens, t + 1, ElemsTokenList(n.obj, n.elems, start + 1, t + 1))
    ensures Holds(tokens, t, NodeTokens(n, start, t))
  {
    hide Holds;
    KeyTokenHeld(tokens, t, tokens[t]);
    if n.Tree? {
      HoldsConcat(tokens, t, [tokens[t]], ElemsTokenList(n.obj, n.elems, start + 1, t + 1));
    }
  }

  /** What Progress says about numbers. */
  lemma ProgressNumbers(s: string, start: nat, pos: nat, depth: nat, first: nat, count: nat, obj: bool, lead: string,
      done: seq<Elem>)
    requires Progress(s, start, pos, depth, first, count, obj, lead, done)
    ensures start < |s| && pos <= |s| && pos == ElemStart(obj, done, start + 1, |done|) + |lead|
    ensures count == first + 1 + ElemsTokens(obj, done) && At(s, start + 1, ElemsText(obj, done))
    ensures forall i | 0 <= i < |done| :: WellFormedElem(obj, done[i])
    ensures obj ==> DistinctKeys(done)
  {
    assert done[..|done|] == done;
    AtConcat(s, start + 1, ElemsText(obj, done) + (if done != [] then "," else ""), lead);
    AtConcat(s, start + 1, ElemsText(obj, done), if done != [] then "," else "");
  }

  lemma NoProgress(s: string, start: nat, pos: nat, depth: nat, first: nat, obj: bool)
    requires start < |s| && s[start] == Open(obj) && pos == Skip(s, start + 1) && depth <= DEPTH_MAX
        && first < TOKEN_MAX
    ensures Progress(s, start, pos, depth, first, first + 1, obj, s[start + 1..pos], [])
  {
    assert ElemsText(obj, []) + "" + s[start + 1..pos] == s[start + 1..pos];
  }

  lemma HeadedParts(e: Elem)
    ensures var h := Headed(e);
            && h.lead == e.lead && h.key == e.key && h.colonLead == e.colonLead && h.colonAfter == e.colonAfter
            && h.(value := e.value, after := e.after) == e
  {
  }

  lemma ValueUnfolds(s: string, pos: nat, depth: nat, count: nat)
    requires pos <= |s|
    ensures var r := ParseValue(s, pos, depth, count);
            if depth > DEPTH_MAX || pos == |s| || count >= TOKEN_MAX then r == Fail
            else if s[pos] == '{' || s[pos] == '[' then
              var inner, obj := Skip(s, pos + 1), s[pos] == '{';
              r == if inner < |s| && s[inner] == Close(obj) then Done(Tree(obj, s[pos + 1..inner], []), inner + 1)
                   else ParseElems(s, inner, depth, count + 1, obj, s[pos + 1..inner], [])
            else r == ParseLeaf(s, pos)
  {
    hide ParseElems, ParseLeaf, Skip;
  }

  lemma ValueAccepted(s: string, pos: nat, depth: nat, count: nat)
    requires pos <= |s|
    ensures var r := ParseValue(s, pos, depth, count); r.Done? ==> r.end == pos + |Text(r.node)| && pos < r.end <= |s|
  {
    hide *;
    ValueSound(s, pos, depth, count);
    var r := ParseValue(s, pos, depth, count);
    if r.Done? {
      AcceptedParts(s, pos, depth, count, r.node, r.end);
    }
  }

  lemma EmptyTree(tokens: seq<Token>, obj: bool, blank: string, start: nat, first: nat)
    requires first <= |tokens|
    ensures Tokens(Tree(obj, blank, [])) == 1 && Holds(tokens, first, ElemsTokenList(obj, [], start, first))
  {
  }

  lemma LeafTokens(kind: Kind, text: string)
    ensures Tokens(Leaf(kind, text)) == 1 && Text(Leaf(kind, text)) == text
  {
  }

  lemma KeyRead(s: string, body: nat, end: nat, colon: nat, value: nat, lead: string, done: seq<Elem>)
    requires body <= end <= colon < value <= |s| && s[colon] == ':' && colon == Skip(s, end)
        && value == Skip(s, colon + 1)
    requires IsString(s[body..end]) && KeyName(s[body..end]).Some? && !KeyTaken(done, KeyName(s[body..end]))
    ensures var e := KeyElem(s, body, end, colon, value, lead);
            HeadAt(s, body, value, true, e, done) && e == Headed(e) && e.lead == lead && e.key == s[body..end]
  {
    hide IsString, KeyName, KeyTaken;
    ColonText(s, body, end, colon, value);
  }

  lemma DescribedToken(input: string, tokens: seq<Token>, n: Node, start: nat, t: nat)
    requires Describes(input, tokens, n, start, t)
    ensures t < |tokens| && (tokens[t].kind == Object <==> n.Tree? && n.obj) && tokens[t].after == t + Tokens(n)
    ensures n.Tree? && n.obj ==> Tokens(n) == 1 + ElemsTokens(true, n.elems)
  {
    FirstToken(tokens, n, start, t);
  }

  /** All that is known once the value of an element has been read. */
  lemma ElementRead(s: string, tokens: seq<Token>, start: nat, body: nat, value: nat, end: nat, next: nat, depth: nat,
                    t: nat, count0: nat, count: nat, obj: bool, e: Elem, done: seq<Elem>)
    requires Progress(s, start, body, depth, t, count0, obj, e.lead, done)
        && HeadAt(s, body, value, obj, Headed(e), done)
    requires count == (count0 + if obj then 1 else 0) && value <= |s|
    requires ParseValue(s, value, depth + 1, count) == Done(e.value, end) && value < end <= |s| && next == Skip(s, end)
    requires e.after == s[end..next]
    requires Holds(tokens, t + 1, ElemsTokenList(obj, done, start + 1, t + 1))
    requires obj ==> count0 < |tokens| && tokens[count0] == Token(body, |e.key|, count, String)
    requires Holds(tokens, count, NodeTokens(e.value, value, count))
    ensures ParseRest(s, value, depth, count, obj, Headed(e), done)
         == ParseNext(s, next, depth, count + Tokens(e.value), obj, done + [e])
    ensures Finished(s, start, next, depth, t, count + Tokens(e.value), obj, done + [e])
    ensures Holds(tokens, t + 1, ElemsTokenList(obj, done + [e], start + 1, t + 1))
  {
    hide *;
    HeadedParts(e);
    ProgressNumbers(s, start, body, depth, t, count0, obj, e.lead, done);
    HeadLength(s, body, value, obj, Headed(e), done);
    ValueSound(s, value, depth + 1, count);
    AcceptedParts(s, value, depth + 1, count, e.value, end);
    RestStep(s, value, depth, count, obj, e, done, end, next);
    ElementFinished(s, start, body, value, end, depth, t, count0, count, obj, Headed(e), done, e.value);
    assert Headed(e).(value := e.value, after := s[end..next]) == e;
    ElementHeld(tokens, start, t, body, count0, value, obj, e, done);
  }

  const INTEGER_MAX: nat := 0x7fff_ffff_ffff_ffff

  lemma NextDigit(s: string, start: nat, i: nat)
    requires start <= i < |s| && AllDigits(s[start..i]) && IsDigit(s[i])
    ensures AllDigits(s[start..i + 1])
    ensures DigitsValue(s[start..i + 1]) == 10 * DigitsValue(s[start..i]) + (s[i] - '0') as nat
  {
    assert s[start..i + 1][..i - start] == s[start..i];
  }

  /** from_chars: a sign, then digits up to the first other character, with a test against overflow at each. */
  method FromChars(s: string) returns (r: Option<int>)
    ensures r == IntegerOf(s)
  {
    var minus := s != "" && s[0] == '-';
    var start := if minus then 1 else 0;
    var limit := if minus then INTEGER_MAX + 1 else INTEGER_MAX;
    var i, n, fits := start, 0, true;
    while i < |s| && IsDigit(s[i])
      invariant start <= i <= |s| && AllDigits(s[start..i])
      invariant if fits then n == DigitsValue(s[start..i]) <= limit else DigitsValue(s[start..i]) > limit
    {
      NextDigit(s, start, i);
      var d := (s[i] - '0') as nat;
      fits := fits && d <= limit && n <= (limit - d) / 10;
      n, i := if fits then 10 * n + d else n, i + 1;
    }
    assert if minus then s[start..] == s[1..] else s[start..] == s;
    if i == start || i < |s| || !fits {
      NotAllDigits(s[start..], i - start);
      assert i == |s| ==> s[start..i] == s[start..];
      return None;
    }
    assert s[start..i] == s[start..];
    return Some(if minus then -n else n);
  }

  lemma NotAllDigits(t: string, i: nat)
    requires i <= |t|
    ensures i < |t| && !IsDigit(t[i]) ==> !AllDigits(t)
  {
  }

  class Reader {
    const tokens: array<Token>
    var input: string
    var pos: nat
    var count: nat

    ghost predicate Valid()
      reads this
    {
      tokens.Length == TOKEN_MAX && pos <= |input| && count <= TOKEN_MAX
    }

    constructor ()
      ensures Valid() && count == 0 && fresh(tokens)
    {
      tokens := new Token[TOKEN_MAX](_ => NO_TOKEN);
      input, pos, count := "", 0, 0;
    }

    // ---- Scanning ----

    method Space()
      requires Valid()
      modifies this`pos
      ensures Valid() && pos == Skip(input, old(pos))
    {
      while pos < |input| && IsSpace(input[pos])
        invariant Valid() && Skip(input, pos) == Skip(input, old(pos))
      {
        pos := pos + 1;
      }
    }

    method Digits()
      requires Valid()
      modifies this`pos
      ensures Valid() && pos == DigitsEnd(input, old(pos))
    {
      while pos < |input| && IsDigit(input[pos])
        invariant Valid() && DigitsEnd(input, pos) == DigitsEnd(input, old(pos))
      {
        pos := pos + 1;
      }
    }

    /** The escape behind a backslash; pos is behind the backslash. */
    method Escape() returns (ok: bool)
      requires Valid() && 0 < pos && input[pos - 1] == '\\'
      modifies this`pos
      ensures Valid() && old(pos) <= pos
      ensures ok <==> ItemSize(input[old(pos) - 1..]) > 0
      ensures ok ==> pos == old(pos) - 1 + ItemSize(input[old(pos) - 1..])
    {
      ghost var rest := input[pos - 1..];
      if pos == |input| {
        return false;
      }
      var e := input[pos];
      assert rest[1] == e;
      pos := pos + 1;
      if e == 'u' {
        for i := 0 to 4
          invariant Valid() && pos == old(pos) + 1 + i
          invariant forall k | 2 <= k < 2 + i :: IsHex(rest[k])
        {
          if pos == |input| {
            return false;
          }
          assert rest[2 + i] == input[pos];
          pos := pos + 1;
          if !IsHex(input[pos - 1]) {
            return false;
          }
        }
        return true;
      }
      return IsEscape(e);
    }

    /** A string; pos is behind its opening quote. */
    method Quoted() returns (ok: bool)
      requires Valid()
      modifies this`pos
      ensures Valid() && old(pos) <= pos
      ensures ok <==> StringEnd(input, old(pos)).Some?
      ensures ok ==> pos == StringEnd(input, old(pos)).value
    {
      while pos < |input|
        invariant Valid() && old(pos) <= pos
        invariant StringEnd(input, pos) == StringEnd(input, old(pos))
      {
        var c := input[pos];
        assert input[pos..][0] == c;
        pos := pos + 1;
        if c == '"' {
          return true;
        }
        if c < 32 as char || c >= 128 as char {
          return false;
        }
        if c == '\\' {
          ghost var before := pos;
          var fine := Escape();
          if !fine {
            return false;
          }
        }
      }
      return false;
    }

    method Word(word: string) returns (ok: bool)
      requires Valid()
      modifies this`pos
      ensures Valid() && ok == WordAt(input, old(pos), word)
      ensures pos == if ok then old(pos) + |word| else old(pos)
    {
      if pos + |word| > |input| || input[pos..pos + |word|] != word {
        return false;
      }
      pos := pos + |word|;
      return true;
    }

    method Whole() returns (ok: bool)
      requires Valid()
      modifies this`pos
      ensures Valid() && old(pos) <= pos
      ensures var end := WholeEnd(input, old(pos)); ok == end.Some? && (ok ==> pos == end.value)
    {
      if pos == |input| {
        return false;
      }
      if input[pos] == '0' {
        pos := pos + 1;
      } else {
        if !DigitAt(input, pos) {
          return false;
        }
        Digits();
      }
      return true;
    }

    method Fraction() returns (ok: bool)
      requires Valid()
      modifies this`pos
      ensures Valid() && old(pos) <= pos
      ensures var end := FractionEnd(input, old(pos)); ok == end.Some? && (ok ==> pos == end.value)
    {
      if pos < |input| && input[pos] == '.' {
        pos := pos + 1;
        if !DigitAt(input, pos) {
          return false;
        }
        Digits();
      }
      return true;
    }

    method Exponent() returns (ok: bool)
      requires Valid()
      modifies this`pos
      ensures Valid() && old(pos) <= pos
      ensures var end := ExponentEnd(input, old(pos)); ok == end.Some? && (ok ==> pos == end.value)
    {
      if pos < |input| && (input[pos] == 'e' || input[pos] == 'E') {
        pos := pos + 1;
        if pos < |input| && (input[pos] == '+' || input[pos] == '-') {
          pos := pos + 1;
        }
        if !DigitAt(input, pos) {
          return false;
        }
        Digits();
      }
      return true;
    }

    method Numeral() returns (ok: bool)
      requires Valid() && pos < |input|
      modifies this`pos
      ensures Valid() && old(pos) <= pos
      ensures var end := NumberEnd(input, old(pos)); ok == end.Some? && (ok ==> pos == end.value)
    {
      if input[pos] == '-' {
        pos := pos + 1;
      }
      ok := Whole();
      if ok {
        ok := Fraction();
      }
      if ok {
        ok := Exponent();
      }
    }

    /** A value that is not a tree. */
    method Scalar() returns (ok: bool, kind: Kind)
      requires Valid() && pos < |input|
      modifies this`pos
      ensures Valid() && old(pos) <= pos && ok == ParseLeaf(input, old(pos)).Done?
      ensures ok ==> old(pos) < pos && ParseLeaf(input, old(pos)) == Done(Leaf(kind, input[old(pos)..pos]), pos)
    {
      hide StringEnd, NumberEnd, WordAt;
      var c := input[pos];
      if c == '"' {
        kind, pos := String, pos + 1;
        ok := Quoted();
      } else if c == 't' || c == 'f' || c == 'n' {
        kind := if c == 'n' then Null else Boolean;
        ok := Word(if c == 't' then "true" else if c == 'f' then "false" else "null");
      } else {
        kind := Number;
        ok := Numeral();
      }
    }

    // ---- Strings ----

    /** The item of a string at index i: its size and the character it stands for. */
    method Item(s: string, i: nat) returns (size: nat, c: Option<char>)
      requires 1 <= i < |s| - 1 && ItemSize(s[i..|s| - 1]) > 0
      ensures size == ItemSize(s[i..|s| - 1]) && c == ItemValue(s[i..|s| - 1])
    {
      ghost var rest := s[i..|s| - 1];
      assert forall k | 0 <= k < |rest| :: rest[k] == s[i + k];
      if s[i] != '\\' {
        return 1, Some(s[i]);
      }
      match s[i + 1]
      case 'n' => return 2, Some('\n');
      case 'r' => return 2, Some('\r');
      case 't' => return 2, Some('\t');
      case 'b' => return 2, Some(8 as char);
      case 'f' => return 2, Some(12 as char);
      case 'u' =>
        var n := 0;
        for k := 0 to 4
          invariant (k == 0 ==> n == 0) && (k == 1 ==> n == HexValue(rest[2]))
          invariant k == 2 ==> n == HexValue(rest[2]) * 16 + HexValue(rest[3])
          invariant k == 3 ==> n == (HexValue(rest[2]) * 16 + HexValue(rest[3])) * 16 + HexValue(rest[4])
          invariant k == 4 ==>
                      n == ((HexValue(rest[2]) * 16 + HexValue(rest[3])) * 16 + HexValue(rest[4])) * 16
                         + HexValue(rest[5])
        {
          n := n * 16 + HexValue(s[i + 2 + k]);
        }
        return 6, if n == 0 || n > 127 then None else Some(n as char);
      case other => return 2, Some(other);
    }

    function Raw(t: int): string
      reads this, tokens
    {
      if 0 <= t < count <= tokens.Length && tokens[t].start + tokens[t].size <= |input|
      then input[tokens[t].start..tokens[t].start + tokens[t].size] else ""
    }

    /** A string token spans a string. */
    ghost predicate Quotes(t: int)
      reads this, tokens
    {
      0 <= t < count <= tokens.Length && tokens[t].kind == String ==>
        tokens[t].start + tokens[t].size <= |input| && IsString(Raw(t))
    }

    /** Copies the value of a string token, NUL behind it. */
    method StringAt(t: int, out: array<char>) returns (ok: bool)
      requires Valid() && Quotes(t)
      modifies out
      ensures ok == (0 <= t < count && tokens[t].kind == String && Readable(Raw(t), out.Length).Some?)
      ensures ok ==> CString(out[..]) == Readable(Raw(t), out.Length).value
    {
      if t < 0 || t >= count || tokens[t].kind != String || out.Length == 0 {
        return false;
      }
      ok := Copy(Raw(t), out);
    }

    method Copy(s: string, out: array<char>) returns (ok: bool)
      requires IsString(s) && out.Length > 0
      modifies out
      ensures ok == Readable(s, out.Length).Some?
      ensures ok ==> CString(out[..]) == Readable(s, out.Length).value
    {
      hide *;
      CopyStart(s);
      var i, j := 1, 0;
      assert out[..0] == [];
      while i + 1 < |s|
        invariant 1 <= i < |s| && j < out.Length && Halfway(s, out[..j], i)
      {
        CopyNext(s, out[..j], i, out.Length);
        var size, c := Item(s, i);
        if c.None? || j + 1 == out.Length {
          return false;
        }
        ghost var head := out[..j];
        out[j] := c.value;
        j, i := j + 1, i + size;
        assert out[..j] == head + [c.value];
      }
      ghost var head := out[..j];
      out[j] := NUL;
      assert out[..j] == head && out[..][..j] == out[..j];
      CopyEnd(s, out[..], j, i);
      return true;
    }

    // ---- Objects and arrays ----

    /** Whether one of the finished members has this name: the keys are found by following the links. */
    method Taken(t: nat, k: nat, name: array<char>, ghost start: nat, ghost done: seq<Elem>) returns (taken: bool)
      requires Valid() && k == t + 1 + ElemsTokens(true, done) < count
      requires At(input, start, ElemsText(true, done))
      requires forall i | 0 <= i < |done| :: WellFormedElem(true, done[i]) && KeyName(done[i].key).Some?
      requires Holds(tokens[..], t + 1, ElemsTokenList(true, done, start, t + 1))
      ensures taken == KeyTaken(done, Some(CString(name[..])))
    {
      hide Holds, ElemsTokens, ElemsTokenList, WellFormedElem, At, IsString, CString, Decode, KeyName, Readable;
      var i := t + 1;
      ghost var j := 0;
      NoTokens(done);
      while i < k
        invariant j <= |done| && i == t + 1 + ElemsTokens(true, done[..j])
        invariant forall m | 0 <= m < j :: KeyName(done[m].key) != Some(CString(name[..]))
        decreases k - i
      {
        TokensAhead(done, j);
        KeyHeld(input, tokens[..], done, start, t + 1, j);
        KeysAdvance(true, done, j);
        SameText(input, tokens[i].start, done[j].key);
        var prev := new char[KEY_MAX + 1];
        var ok := StringAt(i, prev);
        ReadableKey(done[j].key);
        if !ok || CString(prev[..]) == CString(name[..]) {
          return true;
        }
        i, j := tokens[i + 1].after, j + 1;
      }
      TokensAhead(done, j);
      return false;
    }

    /** The tokens from first on did not change below it, and hold ts from it. */
    twostate predicate Kept(first: nat)
      reads this, tokens
    {
      first <= old(count) <= count <= tokens.Length && forall i | 0 <= i < first :: tokens[i] == old(tokens[i])
    }

    /** One value with white space in front of it. */
    method Value(depth: nat) returns (t: int)
      requires Valid() && depth <= DEPTH_MAX + 1
      modifies this`pos, this`count, tokens
      ensures Valid() && Kept(old(count)) && old(pos) <= pos
      ensures var r := ParseValue(input, Skip(input, old(pos)), depth, old(count));
              && (t == -1 || t == old(count)) && (t >= 0 <==> r.Done?)
              && (r.Done? ==>
                    && pos == r.end && count == t + Tokens(r.node)
                    && Holds(tokens[..], t, NodeTokens(r.node, Skip(input, old(pos)), t)))
      decreases DEPTH_MAX + 1 - depth, 5
    {
      hide ParseValue, ParseElems, ParseRest, ParseNext, ParseLeaf, Progress, Finished, HeadAt, Holds, NodeTokens,
          ElemsTokenList,
           WellFormed, WellFormedElem, Fits, Accepted, Text, ElemsText, Tokens, ElemsTokens, Skip, IsString, KeyName,
               KeyTaken;
      Space();
      ValueUnfolds(input, pos, depth, count);
      ValueAccepted(input, pos, depth, count);
      if depth > DEPTH_MAX || pos == |input| || count == tokens.Length {
        return -1;
      }
      t := count;
      var start := pos;
      count := count + 1;
      tokens[t] := tokens[t].(start := start);
      var c := input[pos];
      var ok, kind;
      ghost var n;
      if c == '{' || c == '[' {
        kind := TreeKind(c == '{');
        pos := pos + 1;
        ok, n := Brackets(t, depth, c == '{', start);
      } else {
        ok, kind := Scalar();
        n := if ok then Leaf(kind, input[start..pos]) else Leaf(kind, "");
        LeafTokens(kind, n.text);
      }
      if !ok {
        return -1;
      }
      ghost var before := tokens[..];
      tokens[t] := Token(start, pos - start, count, kind);
      if n.Tree? {
        HoldsBehind(before, tokens[..], t + 1, ElemsTokenList(n.obj, n.elems, start + 1, t + 1));
      }
      NodeHeld(tokens[..], n, start, t);
    }

    /** The inside of an object or array, and its closing bracket. */
    method Brackets(t: nat, depth: nat, obj: bool, ghost start: nat) returns (ok: bool, ghost n: Node)
      requires Valid() && depth <= DEPTH_MAX && count == t + 1 && pos == start + 1 && input[start] == Open(obj)
      modifies this`pos, this`count, tokens
      ensures Valid() && Kept(t + 1) && old(pos) <= pos
      ensures ok == ParseValue(input, start, depth, t).Done?
      ensures ok ==> n.Tree? && n.obj == obj && ParseValue(input, start, depth, t) == Done(n, pos)
      ensures ok ==> count == t + Tokens(n) && Holds(tokens[..], t + 1, ElemsTokenList(obj, n.elems, start + 1, t + 1))
      decreases DEPTH_MAX + 1 - depth, 4
    {
      hide ParseValue, ParseElems, ParseRest, ParseNext, ParseLeaf, Progress, Finished, HeadAt, Holds, NodeTokens,
          ElemsTokenList,
           WellFormed, WellFormedElem, Fits, Accepted, Text, ElemsText, Tokens, ElemsTokens, Skip, IsString, KeyName,
               KeyTaken;
      ValueUnfolds(input, start, depth, t);
      Space();
      if pos < |input| && input[pos] == Close(obj) {
        EmptyTree(tokens[..], obj, input[start + 1..pos], start + 1, t + 1);
        pos := pos + 1;
        return true, Tree(obj, input[start + 1..pos - 1], []);
      }
      NoProgress(input, start, pos, depth, t, obj);
      ok, n := Elements(t, depth, obj, start);
    }

    /** Elements up to the closing bracket; pos is behind the white space in front of the first. */
    method Elements(t: nat, depth: nat, obj: bool, ghost start: nat) returns (ok: bool, ghost n: Node)
      requires Valid() && depth <= DEPTH_MAX && start < pos && count == t + 1
      requires Progress(input, start, pos, depth, t, count, obj, input[start + 1..pos], [])
      requires pos == |input| || !IsSpace(input[pos])
      modifies this`pos, this`count, tokens
      ensures Valid() && Kept(t + 1) && old(pos) <= pos
      ensures var r := ParseElems(input, old(pos), depth, t + 1, obj, input[start + 1..old(pos)], []);
              ok == r.Done? && (ok ==> r == Done(n, pos))
      ensures ok ==> n.Tree? && n.obj == obj && count == t + Tokens(n)
      ensures ok ==> Holds(tokens[..], t + 1, ElemsTokenList(obj, n.elems, start + 1, t + 1))
      decreases DEPTH_MAX + 1 - depth, 3
    {
      hide ParseValue, ParseElems, ParseRest, ParseNext, ParseLeaf, Progress, Finished, HeadAt, Holds, NodeTokens,
          ElemsTokenList,
           WellFormed, WellFormedElem, Fits, Accepted, Text, ElemsText, Tokens, ElemsTokens, Skip, IsString, KeyName,
               KeyTaken;
      n := Leaf(Null, "");
      ghost var done: seq<Elem>, lead := [], input[start + 1..pos];
      NoTokensHeld(tokens[..], obj, start + 1, t + 1);
      while true
        invariant Valid() && Kept(t + 1) && old(pos) <= pos
        invariant Progress(input, start, Skip(input, pos), depth, t, count, obj, lead, done)
        invariant Holds(tokens[..], t + 1, ElemsTokenList(obj, done, start + 1, t + 1))
        invariant ParseElems(input, Skip(input, pos), depth, count, obj, lead, done)
               == ParseElems(input, old(pos), depth, t + 1, obj, input[start + 1..old(pos)], [])
        decreases |input| - pos
      {
        ghost var e;
        ok, e := Element(t, depth, obj, start, lead, done);
        if !ok {
          return false, n;
        }
        done := done + [e];
        NextStep(input, pos, depth, count, obj, done);
        FinishedNumbers(input, start, pos, depth, t, count, obj, done);
        if pos == |input| {
          return false, n;
        }
        var next := input[pos];
        pos := pos + 1;
        if next == Close(obj) {
          return true, Tree(obj, "", done);
        }
        if next != ',' {
          return false, n;
        }
        CommaProgress(input, start, pos - 1, depth, t, count, obj, done);
        lead := input[pos..Skip(input, pos)];
      }
    }

    /** One element, with the white space around it. */
    method Element(t: nat, depth: nat, obj: bool, ghost start: nat, ghost lead: string, ghost done: seq<Elem>)
      returns (ok: bool, ghost e: Elem)
      requires Valid() && depth <= DEPTH_MAX && Progress(input, start, Skip(input, pos), depth, t, count, obj, lead,
          done)
      requires Holds(tokens[..], t + 1, ElemsTokenList(obj, done, start + 1, t + 1))
      modifies this`pos, this`count, tokens
      ensures Valid() && Kept(t + 1) && old(pos) <= pos
      ensures var r := ParseElems(input, Skip(input, old(pos)), depth, old(count), obj, lead, done);
              if ok then r == ParseNext(input, pos, depth, count, obj, done + [e]) else r == Fail
      ensures ok ==> old(pos) < pos && Finished(input, start, pos, depth, t, count, obj, done + [e])
      ensures ok ==> Holds(tokens[..], t + 1, ElemsTokenList(obj, done + [e], start + 1, t + 1))
      decreases DEPTH_MAX + 1 - depth, 2, 1
    {
      hide ParseValue, ParseElems, ParseRest, ParseNext, ParseLeaf, Progress, Finished, HeadAt, Holds, NodeTokens,
          ElemsTokenList,
           WellFormed, WellFormedElem, Fits, Accepted, Text, ElemsText, Tokens, ElemsTokens, Skip, IsString, KeyName,
               KeyTaken;
      ok := true;
      e := Elem(lead, "", "", "", Leaf(Null, ""), "");
      ghost var body, before := Skip(input, pos), tokens[..];
      ProgressNumbers(input, start, body, depth, t, count, obj, lead, done);
      if obj {
        ok, e := Key(t, depth, start, lead, done);
        if !ok {
          return;
        }
      } else {
        ArrayStep(input, body, depth, count, lead, done);
      }
      ghost var value, index := Skip(input, pos), count;
      HeadLength(input, body, value, obj, e, done);
      var v := Value(depth + 1);
      if v < 0 {
        RestFails(input, value, depth, index, obj, e, done);
        return false, e;
      }
      ghost var end := pos;
      Space();
      ghost var node := ParseValue(input, value, depth + 1, index).node;
      ghost var full := e.(value := node, after := input[end..pos]);
      HoldsKept(before, tokens[..], t + 1, ElemsTokenList(obj, done, start + 1, t + 1));
      ElementRead(input, tokens[..], start, body, value, end, pos, depth, t, old(count), index, obj, full, done);
      e := full;
    }

    /** The key of a member and its colon. */
    method Key(t: nat, depth: nat, ghost start: nat, ghost lead: string, ghost done: seq<Elem>) returns (ok: bool,
        ghost e: Elem)
      requires Valid() && depth <= DEPTH_MAX && Progress(input, start, Skip(input, pos), depth, t, count, true, lead,
          done)
      requires Holds(tokens[..], t + 1, ElemsTokenList(true, done, start + 1, t + 1))
      modifies this`pos, this`count, tokens
      ensures Valid() && Kept(old(count)) && old(pos) <= pos
      ensures var body := Skip(input, old(pos));
              var r := ParseElems(input, body, depth, old(count), true, lead, done);
              if !ok then r == Fail
              else
                && r == ParseRest(input, Skip(input, pos), depth, count, true, e, done)
                && HeadAt(input, body, Skip(input, pos), true, e, done) && e.lead == lead && e == Headed(e)
                && count == old(count) + 1 && tokens[old(count)] == Token(body, |e.key|, count, String)
      decreases DEPTH_MAX + 1 - depth, 2, 0
    {
      hide ParseValue, ParseElems, ParseRest, ParseNext, ParseLeaf, Progress, Finished, HeadAt, Holds, NodeTokens,
          ElemsTokenList,
           WellFormed, WellFormedElem, Fits, Accepted, Text, ElemsText, Tokens, ElemsTokens, Skip, IsString, KeyName,
               KeyTaken, KeyElem;
      ghost var body := Skip(input, pos);
      ProgressNumbers(input, start, body, depth, t, count, true, lead, done);
      ghost var first := count;
      e := Elem(lead, "", "", "", Leaf(Null, ""), "");
      Space();
      if pos == |input| || input[pos] != '"' {
        KeyMissing(input, body, depth, first, lead, done);
        return false, e;
      }
      ghost var key;
      ok, key := NewName(t, depth, start, done);
      if !ok {
        KeyMissing(input, body, depth, first, lead, done);
        return false, e;
      }
      ghost var end := pos;
      ok := Colon();
      if !ok {
        KeyMissing(input, body, depth, first, lead, done);
        return false, e;
      }
      KeyPresent(input, body, depth, first, lead, done, end, pos - 1, Skip(input, pos));
      return true, KeyElem(input, body, end, pos - 1, Skip(input, pos), lead);
    }

    method Colon() returns (ok: bool)
      requires Valid()
      modifies this`pos
      ensures Valid() && old(pos) <= pos
      ensures var colon := Skip(input, old(pos));
              if ok then colon < |input| && input[colon] == ':'
                  && pos == colon + 1 else colon == |input| || input[colon] != ':'
    {
      hide Skip;
      Space();
      if pos == |input| || input[pos] != ':' {
        return false;
      }
      pos := pos + 1;
      return true;
    }

    /** A key that no finished member has. */
    method NewName(t: nat, depth: nat, ghost start: nat, ghost done: seq<Elem>) returns (ok: bool, ghost key: string)
      requires Valid() && depth <= DEPTH_MAX && pos < |input| && input[pos] == '"'
      requires count == t + 1 + ElemsTokens(true, done) && At(input, start + 1, ElemsText(true, done))
      requires (forall i | 0 <= i < |done| :: WellFormedElem(true, done[i])) && DistinctKeys(done)
      requires Holds(tokens[..], t + 1, ElemsTokenList(true, done, start + 1, t + 1))
      modifies this`pos, this`count, tokens
      ensures Valid() && Kept(old(count)) && old(pos) <= pos
      ensures var r := ParseValue(input, old(pos), depth + 1, old(count));
              ok == (r.Done? && KeyName(input[old(pos)..r.end]).Some?
                  && !KeyTaken(done, KeyName(input[old(pos)..r.end])))
              && (ok ==> r.end == pos && key == input[old(pos)..pos])
      ensures ok ==>
                IsString(key) && count == old(count) + 1 && tokens[old(count)] == Token(old(pos), |key|, count, String)
      decreases DEPTH_MAX + 1 - depth, 1
    {
      hide ParseValue, ParseElems, ParseRest, ParseNext, ParseLeaf, Progress, Finished, HeadAt, Holds, NodeTokens,
          ElemsTokenList,
           WellFormed, WellFormedElem, Fits, Accepted, Text, ElemsText, Tokens, ElemsTokens, Skip, IsString, KeyName,
               KeyTaken;
      ghost var before := tokens[..];
      var name := new char[KEY_MAX + 1];
      var k;
      k, ok, key := Name(depth, name);
      if ok {
        HoldsKept(before, tokens[..], t + 1, ElemsTokenList(true, done, start + 1, t + 1));
        var taken := Taken(t, k, name, start + 1, done);
        ok := !taken;
      }
    }

    /** A key: a string that fits the buffer for names. */
    method Name(depth: nat, name: array<char>) returns (k: int, ok: bool, ghost key: string)
      requires Valid() && depth <= DEPTH_MAX && pos < |input| && input[pos] == '"' && name.Length == KEY_MAX + 1
      modifies this`pos, this`count, tokens, name
      ensures Valid() && Kept(old(count)) && old(pos) <= pos
      ensures var r := ParseValue(input, old(pos), depth + 1, old(count));
              ok == (r.Done? && KeyName(input[old(pos)..r.end]).Some?)
              && (ok ==> r == Done(Leaf(String, key), pos) && key == input[old(pos)..pos])
      ensures ok ==> IsString(key) && KeyName(key) == Some(CString(name[..]))
      ensures ok ==> k == old(count) && count == k + 1 && tokens[k] == Token(old(pos), |key|, k + 1, String)
      decreases DEPTH_MAX + 1 - depth, 0
    {
      hide ParseValue, ParseElems, ParseRest, ParseNext, ParseLeaf, Progress, Finished, HeadAt, Holds, NodeTokens,
          ElemsTokenList,
           WellFormed, WellFormedElem, Fits, Accepted, Text, ElemsText, Tokens, ElemsTokens, Skip, IsString, KeyName,
               KeyTaken;
      ghost var body := pos;
      key := "";
      k := Value(depth + 1);
      if k < 0 {
        return k, false, key;
      }
      KeyLeaf(input, body, depth + 1, k);
      key := input[body..pos];
      LeafTokens(String, key);
      FirstToken(tokens[..], Leaf(String, key), body, k);
      ok := StringAt(k, name);
      ReadableKey(key);
    }

    // ---- The whole text, and reading from it ----

    method Parse(text: string) returns (ok: bool)
      requires Valid()
      modifies this`input, this`pos, this`count, tokens
      ensures Valid() && input == text && ok == ParseText(text).Done?
      ensures ok ==> var n := ParseText(text).node;
                     count == Tokens(n) && Describes(input, tokens[..count], n, Skip(text, 0), 0)
    {
      hide ParseValue, Skip, Text, WellFormed, Fits, Tokens, NodeTokens, Holds, Accepted;
      input, pos, count := text, 0, 0;
      if text == "" || |text| > INPUT_MAX {
        return false;
      }
      var t := Value(0);
      if t < 0 {
        return false;
      }
      ghost var start, n := Skip(text, 0), ParseValue(text, Skip(text, 0), 0, 0).node;
      ValueSound(text, start, 0, 0);
      AcceptedParts(text, start, 0, 0, n, pos);
      HoldsKept(tokens[..], tokens[..count], 0, NodeTokens(n, start, 0));
      Space();
      return pos == |input|;
    }

    /** The value of the only member of this name, by its token; j is that member. */
    method Member(t: int, key: string, ghost n: Node, ghost start: nat) returns (v: int, ghost j: nat)
      requires Valid() && 0 <= t < count && Describes(input, tokens[..count], n, start, t)
      ensures v >= 0 ==>
                && n.Tree? && n.obj && j < |n.elems| && KeyName(n.elems[j].key) == Some(key)
                && v == ValueIndex(true, n.elems, t, j) < count
                && Describes(input, tokens[..count], n.elems[j].value,
                             ValueAt(true, n.elems[j], ElemStart(true, n.elems, start + 1, j)), v)
      ensures v < 0 ==> v == -1 && (n.Tree? && n.obj ==> forall i | 0 <= i < |n.elems| ::
          KeyName(n.elems[i].key) != Some(key))
    {
      hide Holds, ElemsTokens, ElemsTokenList, WellFormedElem, At, IsString, CString, Decode, KeyName, Readable,
          NodeTokens,
           Text, ElemStart, WellFormed, Describes;
      j := 0;
      DescribedToken(input, tokens[..count], n, start, t);
      if tokens[t].kind != Object {
        return -1, j;
      }
      var i := t + 1;
      NoTokens(n.elems);
      while i < tokens[t].after
        invariant j <= |n.elems| && i == t + 1 + ElemsTokens(true, n.elems[..j])
        invariant forall m | 0 <= m < j :: KeyName(n.elems[m].key) != Some(key)
        decreases tokens[t].after - i
      {
        v := i + 1;
        TokensAhead(n.elems, j);
        MemberDescribed(input, tokens[..count], n, start, t, j);
        KeysAdvance(true, n.elems, j);
        SameText(input, tokens[i].start, n.elems[j].key);
        var name := new char[KEY_MAX + 1];
        var ok := StringAt(i, name);
        ReadableKey(n.elems[j].key);
        if ok && key == CString(name[..]) {
          return v, j;
        }
        i, j := tokens[v].after, j + 1;
      }
      TokensAhead(n.elems, j);
      return -1, j;
    }

    /** The token is an integer exactly when from_chars takes the whole of it. */
    method Integer(t: int) returns (n: Option<int>)
      requires Valid()
      ensures n == if 0 <= t < count && tokens[t].kind == Number then IntegerOf(Raw(t)) else None
    {
      if t < 0 || t >= count || tokens[t].kind != Number {
        return None;
      }
      n := FromChars(Raw(t));
    }
  }
}
