/** The JSON grammar (sections 2 to 7 of RFC 8259, string characters below 128) as concrete trees. */
module JsonText {
  import opened Core

  /** Token types. */
  datatype Kind = Object | Array | String | Number | Boolean | Null

  datatype Node =
    | Leaf(kind: Kind, text: string)
    | Tree(obj: bool, blank: string, elems: seq<Elem>)

  /**
   * One array value or object member with all its white space; an array value has no key.
   * blank of a Tree is the white space inside empty brackets.
   */
  datatype Elem = Elem(lead: string, key: string, colonLead: string, colonAfter: string, value: Node, after: string)

  // ---- Characters ----

  predicate IsSpace(c: char) {
    c == ' ' || c == '\n' || c == '\r' || c == '\t'
  }

  predicate IsDigit(c: char) {
    '0' <= c <= '9'
  }

  predicate IsHex(c: char) {
    '0' <= c <= '9' || 'a' <= c <= 'f' || 'A' <= c <= 'F'
  }

  predicate IsEscape(c: char) {
    c in "\"\\/bfnrt"
  }

  predicate Plain(c: char) {
    32 as char <= c < 128 as char && c != '"' && c != '\\'
  }

  ghost predicate Blank(w: string) {
    forall i | 0 <= i < |w| :: IsSpace(w[i])
  }

  ghost predicate Digits(t: string) {
    t != "" && forall i | 0 <= i < |t| :: IsDigit(t[i])
  }

  // ---- The lexical grammar ----

  /** How many characters the first string item takes: a plain one, an escape, a \u escape, or 0: none. */
  function ItemSize(b: string): (n: nat)
    ensures n <= |b|
  {
    if b == "" then 0
    else if Plain(b[0]) then 1
    else if b[0] == '\\' && |b| >= 2 && IsEscape(b[1]) then 2
    else if b[0] == '\\' && |b| >= 6 && b[1] == 'u' && IsHex(b[2]) && IsHex(b[3]) && IsHex(b[4]) && IsHex(b[5]) then 6
    else 0
  }

  predicate StringBody(b: string) {
    b == "" || (ItemSize(b) > 0 && StringBody(b[ItemSize(b)..]))
  }

  predicate IsString(t: string) {
    |t| >= 2 && t[0] == '"' && t[|t| - 1] == '"' && StringBody(t[1..|t| - 1])
  }

  ghost predicate IsInteger(t: string) {
    t == "0" || (Digits(t) && t[0] != '0')
  }

  ghost predicate IsFraction(t: string) {
    t == "" || (t[0] == '.' && Digits(t[1..]))
  }

  ghost predicate IsExponent(t: string) {
    t == "" || ((t[0] == 'e' || t[0] == 'E')
                && (Digits(t[1..]) || (|t| >= 2 && (t[1] == '+' || t[1] == '-') && Digits(t[2..]))))
  }

  ghost predicate NumberOf(t: string, sign: string, whole: string, fraction: string, exponent: string) {
    && t == sign + whole + fraction + exponent
    && (sign == "" || sign == "-") && IsInteger(whole) && IsFraction(fraction) && IsExponent(exponent)
  }

  ghost predicate IsNumber(t: string) {
    exists sign, whole, fraction, exponent :: NumberOf(t, sign, whole, fraction, exponent)
  }

  ghost predicate WellFormedLeaf(kind: Kind, t: string) {
    match kind
    case String => IsString(t)
    case Number => IsNumber(t)
    case Boolean => t == "true" || t == "false"
    case Null => t == "null"
    case _ => false
  }

  // ---- Trees ----

  function Text(n: Node): (t: string)
    decreases n, 0
  {
    match n
    case Leaf(_, text) => text
    case Tree(obj, blank, elems) =>
      [Open(obj)] + (if elems == [] then blank else ElemsText(obj, elems)) + [Close(obj)]
  }

  function Open(obj: bool): char {
    if obj then '{' else '['
  }

  function Close(obj: bool): char {
    if obj then '}' else ']'
  }

  function ElemText(obj: bool, e: Elem): string
    decreases e, 1
  {
    e.lead + ElemBody(obj, e)
  }

  function ElemBody(obj: bool, e: Elem): string
    decreases e, 0
  {
    (if obj then e.key + e.colonLead + ":" + e.colonAfter else "") + Text(e.value) + e.after
  }

  function ElemsText(obj: bool, elems: seq<Elem>): string
    decreases elems, 0
  {
    if elems == [] then ""
    else
      var n := |elems| - 1;
      ElemsText(obj, elems[..n]) + (if n > 0 then "," else "") + ElemText(obj, elems[n])
  }

  /** The value a JSON string stands for, if all of it is nonzero ASCII. */
  function Decode(b: string): Option<string> {
    if b == "" then Some("")
    else if ItemSize(b) == 0 then None
    else
      var c := ItemValue(b);
      var rest := Decode(b[ItemSize(b)..]);
      if c.None? || rest.None? then None else Some([c.value] + rest.value)
  }

  function HexValue(c: char): nat
    requires IsHex(c)
  {
    if c <= '9' then (c - '0') as nat
    else if c <= 'F' then (c - 'A') as nat + 10
    else (c - 'a') as nat + 10
  }

  function ItemValue(b: string): Option<char>
    requires ItemSize(b) > 0
  {
    if ItemSize(b) == 1 then Some(b[0])
    else if ItemSize(b) == 2 then
      Some(match b[1]
           case 'n' => '\n'
           case 'r' => '\r'
           case 't' => '\t'
           case 'b' => 8 as char
           case 'f' => 12 as char
           case c => c)
    else
      var n := ((HexValue(b[2]) * 16 + HexValue(b[3])) * 16 + HexValue(b[4])) * 16 + HexValue(b[5]);
      if n == 0 || n > 127 then None else Some(n as char)
  }

  function Inside(t: string): string
    requires |t| >= 2
  {
    t[1..|t| - 1]
  }

  const KEY_MAX: nat := 79

  /** A key must decode to a string that fits the reader's buffer. */
  function KeyName(key: string): Option<string> {
    if |key| < 2 then None
    else
      var name := Decode(Inside(key));
      if name.Some? && |name.value| <= KEY_MAX then name else None
  }

  ghost predicate DistinctKeys(elems: seq<Elem>) {
    && (forall i | 0 <= i < |elems| :: KeyName(elems[i].key).Some?)
    && (forall i, j | 0 <= i < j < |elems| :: KeyName(elems[i].key) != KeyName(elems[j].key))
  }

  ghost predicate WellFormedElem(obj: bool, e: Elem)
    decreases e, 0
  {
    && Blank(e.lead) && Blank(e.after) && Blank(e.colonLead) && Blank(e.colonAfter)
    && (if obj then IsString(e.key) else e.key == "" && e.colonLead == "" && e.colonAfter == "")
    && WellFormed(e.value)
  }

  /** A JSON value, every object of it with distinct readable keys. */
  ghost predicate WellFormed(n: Node)
    decreases n, 0
  {
    match n
    case Leaf(kind, text) => WellFormedLeaf(kind, text)
    case Tree(obj, blank, elems) =>
      && (if elems == [] then Blank(blank) else blank == "")
      && (forall i | 0 <= i < |elems| :: WellFormedElem(obj, elems[i]))
      && (obj ==> DistinctKeys(elems))
  }

  function Tokens(n: Node): (k: nat)
    ensures k > 0
    decreases n, 0
  {
    match n
    case Leaf(_, _) => 1
    case Tree(obj, _, elems) => 1 + ElemsTokens(obj, elems)
  }

  function ElemsTokens(obj: bool, elems: seq<Elem>): nat
    decreases elems, 0
  {
    if elems == [] then 0
    else
      var n := |elems| - 1;
      ElemsTokens(obj, elems[..n]) + (if obj then 1 else 0) + Tokens(elems[n].value)
  }

  function Height(n: Node): nat
    decreases n, 0
  {
    match n
    case Leaf(_, _) => 0
    case Tree(_, _, elems) => if elems == [] then 0 else 1 + ElemsHeight(elems)
  }

  function ElemsHeight(elems: seq<Elem>): nat
    decreases elems, 0
  {
    if elems == [] then 0
    else
      var n := |elems| - 1;
      Max(ElemsHeight(elems[..n]), Height(elems[n].value))
  }

  // ---- Positions in the input ----

  ghost predicate At(s: string, pos: int, t: string) {
    0 <= pos && pos + |t| <= |s| && s[pos..pos + |t|] == t
  }

  lemma AtConcat(s: string, pos: int, a: string, b: string)
    ensures At(s, pos, a + b) <==> At(s, pos, a) && At(s, pos + |a|, b)
  {
    if At(s, pos, a + b) {
      assert s[pos..pos + |a|] == s[pos..pos + |a + b|][..|a|] == a;
      assert s[pos + |a|..pos + |a| + |b|] == s[pos..pos + |a + b|][|a|..] == b;
    }
    if At(s, pos, a) && At(s, pos + |a|, b) {
      assert s[pos..pos + |a + b|] == s[pos..pos + |a|] + s[pos + |a|..pos + |a| + |b|];
    }
  }
}
