/** The flat token list of a parsed tree: preorder, with spans in the input and links behind each subtree. */
module JsonTokens {
  import opened JsonText

  /** after is the index of the token behind this one's subtree. */
  datatype Token = Token(start: nat, size: nat, after: nat, kind: Kind)

  function TreeKind(obj: bool): Kind {
    if obj then Object else Array
  }

  /** The tokens of a value whose text starts at start and whose first token has index first. */
  function NodeTokens(n: Node, start: nat, first: nat): (ts: seq<Token>)
    ensures |ts| == Tokens(n)
    decreases n, 0
  {
    match n
    case Leaf(kind, text) => [Token(start, |text|, first + 1, kind)]
    case Tree(obj, _, elems) =>
      [Token(start, |Text(n)|, first + Tokens(n), TreeKind(obj))] + ElemsTokenList(obj, elems, start + 1, first + 1)
  }

  function ElemsTokenList(obj: bool, elems: seq<Elem>, start: nat, first: nat): (ts: seq<Token>)
    ensures |ts| == ElemsTokens(obj, elems)
    decreases elems, 0
  {
    if elems == [] then []
    else
      var n := |elems| - 1;
      ElemsTokenList(obj, elems[..n], start, first)
      + ElemTokenList(obj, elems[n], ElemStart(obj, elems, start, n), first + ElemsTokens(obj, elems[..n]))
  }

  /** Where element k stands, lead included. */
  function ElemStart(obj: bool, elems: seq<Elem>, start: nat, k: nat): nat
    requires k <= |elems|
  {
    start + |ElemsText(obj, elems[..k])| + if k > 0 then 1 else 0
  }

  function ElemTokenList(obj: bool, e: Elem, start: nat, first: nat): (ts: seq<Token>)
    ensures |ts| == (if obj then 1 else 0) + Tokens(e.value)
    decreases e, 1
  {
    if obj then
      [Token(start + |e.lead|, |e.key|, first + 1, String)] + NodeTokens(e.value, ValueAt(obj, e, start), first + 1)
    else NodeTokens(e.value, ValueAt(obj, e, start), first)
  }

  /** Where the value of an element that stands at start begins. */
  function ValueAt(obj: bool, e: Elem, start: nat): nat {
    start + |e.lead| + if obj then |e.key| + |e.colonLead| + 1 + |e.colonAfter| else 0
  }

  /** The index of the value token of element k. */
  function ValueIndex(obj: bool, elems: seq<Elem>, first: nat, k: nat): nat
    requires k < |elems|
  {
    first + 1 + ElemsTokens(obj, elems[..k]) + if obj then 1 else 0
  }

  // ---- Where things are in the list ----

  lemma TokensGrow(obj: bool, done: seq<Elem>, e: Elem, start: nat, first: nat)
    ensures ElemsTokenList(obj, done + [e], start, first)
         == ElemsTokenList(obj, done, start, first)
          + ElemTokenList(obj, e, ElemStart(obj, done, start, |done|), first + ElemsTokens(obj, done))
  {
    assert (done + [e])[..|done|] == done == done[..|done|];
  }

  /** ts stands in tokens from index first on. */
  ghost predicate Holds(tokens: seq<Token>, first: nat, ts: seq<Token>) {
    first + |ts| <= |tokens| && forall i | 0 <= i < |ts| :: tokens[first + i] == ts[i]
  }

  lemma HoldsConcat(tokens: seq<Token>, first: nat, a: seq<Token>, b: seq<Token>)
    ensures Holds(tokens, first, a + b) <==> Holds(tokens, first, a) && Holds(tokens, first + |a|, b)
  {
    if Holds(tokens, first, a + b) {
      forall i | 0 <= i < |a| ensures tokens[first + i] == a[i] {
        assert (a + b)[i] == a[i];
      }
      forall i | 0 <= i < |b| ensures tokens[first + |a| + i] == b[i] {
        assert tokens[first + (|a| + i)] == (a + b)[|a| + i];
      }
    }
    if Holds(tokens, first, a) && Holds(tokens, first + |a|, b) {
      forall i | 0 <= i < |a + b| ensures tokens[first + i] == (a + b)[i] {
        if i >= |a| {
          assert tokens[first + |a| + (i - |a|)] == b[i - |a|];
        }
      }
    }
  }

  lemma PrefixOfPrefix(elems: seq<Elem>, n: nat, k: nat)
    requires k <= n <= |elems|
    ensures elems[..n][..k] == elems[..k]
  {
  }

  /** The tokens of element k stand where those of the elements before it end. */
  lemma {:induction false} ElemHeld(tokens: seq<Token>, obj: bool, elems: seq<Elem>, start: nat, first: nat, k: nat)
    requires k < |elems| && Holds(tokens, first, ElemsTokenList(obj, elems, start, first))
    ensures Holds(tokens, first + ElemsTokens(obj, elems[..k]),
                  ElemTokenList(obj, elems[k], ElemStart(obj, elems, start, k), first + ElemsTokens(obj, elems[..k])))
    decreases |elems|
  {
    hide Holds, ElemTokenList, ElemsTokens, Tokens, ElemText;
    var n := |elems| - 1;
    HoldsConcat(tokens, first, ElemsTokenList(obj, elems[..n], start, first),
                ElemTokenList(obj, elems[n], ElemStart(obj, elems, start, n), first + ElemsTokens(obj, elems[..n])));
    if k < n {
      ElemHeld(tokens, obj, elems[..n], start, first, k);
      PrefixOfPrefix(elems, n, k);
    }
  }

  // ---- Tokens that describe a value of the input ----

  /** From index first on, the tokens are those of the well-formed value n at start. */
  ghost predicate Describes(input: string, tokens: seq<Token>, n: Node, start: nat, first: nat) {
    WellFormed(n) && At(input, start, Text(n)) && Holds(tokens, first, NodeTokens(n, start, first))
  }

  /** Element k of a described tree: where it stands, and its tokens. */
  lemma ElemDescribed(input: string, tokens: seq<Token>, n: Node, start: nat, first: nat, k: nat)
    requires Describes(input, tokens, n, start, first) && n.Tree? && k < |n.elems|
    ensures var e, at, low := n.elems[k], ElemStart(n.obj, n.elems, start + 1, k),
        first + 1 + ElemsTokens(n.obj, n.elems[..k]);
            && WellFormedElem(n.obj, e) && At(input, at, ElemText(n.obj, e))
            && Holds(tokens, low, ElemTokenList(n.obj, e, at, low))
  {
    hide Holds, ElemTokenList, ElemsTokenList, WellFormedElem, DistinctKeys, ElemText, At, ElemsText, Tokens;
    TreePlaced(input, start, n);
    ElemPlaced(input, start + 1, n.obj, n.elems, k);
    HoldsConcat(tokens, first, [Token(start, |Text(n)|, first + Tokens(n), TreeKind(n.obj))],
                ElemsTokenList(n.obj, n.elems, start + 1, first + 1));
    ElemHeld(tokens, n.obj, n.elems, start + 1, first + 1, k);
  }

  lemma TreePlaced(input: string, start: nat, n: Node)
    requires n.Tree? && n.elems != [] && At(input, start, Text(n))
    ensures At(input, start + 1, ElemsText(n.obj, n.elems))
  {
    AtConcat(input, start, [Open(n.obj)] + ElemsText(n.obj, n.elems), [Close(n.obj)]);
    AtConcat(input, start, [Open(n.obj)], ElemsText(n.obj, n.elems));
  }

  lemma {:induction false} ElemPlaced(input: string, start: nat, obj: bool, elems: seq<Elem>, k: nat)
    requires k < |elems| && At(input, start, ElemsText(obj, elems))
    ensures At(input, ElemStart(obj, elems, start, k), ElemText(obj, elems[k]))
    decreases |elems|
  {
    var n := |elems| - 1;
    var comma := if n > 0 then "," else "";
    AtConcat(input, start, ElemsText(obj, elems[..n]) + comma, ElemText(obj, elems[n]));
    AtConcat(input, start, ElemsText(obj, elems[..n]), comma);
    if k < n {
      ElemPlaced(input, start, obj, elems[..n], k);
      assert elems[..n][..k] == elems[..k];
    }
  }

  /** The key and the value of element k of a described object. */
  lemma MemberDescribed(input: string, tokens: seq<Token>, n: Node, start: nat, first: nat, k: nat)
    requires Describes(input, tokens, n, start, first) && n.Tree? && n.obj && k < |n.elems|
    ensures var e, v := n.elems[k], ValueIndex(true, n.elems, first, k);
            && first < v - 1 < v < |tokens|
            && tokens[v - 1] == Token(tokens[v - 1].start, |e.key|, v, String)
            && IsString(e.key) && At(input, tokens[v - 1].start, e.key)
            && Describes(input, tokens, e.value, ValueAt(true, e, ElemStart(true, n.elems, start + 1, k)), v)
            && tokens[v].after == v + Tokens(e.value)
  {
    ElemDescribed(input, tokens, n, start, first, k);
    var e, at, low := n.elems[k], ElemStart(true, n.elems, start + 1, k), first + 1 + ElemsTokens(true, n.elems[..k]);
    ValueDescribed(input, tokens, e, at, low);
    hide Holds, Text, ElemsTokens, ElemsText, ElemText, IsString, At, ElemStart, WellFormed, Tokens, NodeTokens,
        ElemTokenList,
         WellFormedElem, Describes, ElemsTokenList, ValueAt;
  }

  lemma ValueDescribed(input: string, tokens: seq<Token>, e: Elem, at: nat, low: nat)
    requires WellFormedElem(true, e) && At(input, at, ElemText(true, e))
        && Holds(tokens, low, ElemTokenList(true, e, at, low))
    ensures low + 1 < |tokens| && tokens[low] == Token(tokens[low].start, |e.key|, low + 1, String)
    ensures IsString(e.key) && At(input, tokens[low].start, e.key) && tokens[low + 1].after == low + 1 + Tokens(e.value)
    ensures Describes(input, tokens, e.value, ValueAt(true, e, at), low + 1)
  {
    hide Holds, Text, ElemText, IsString, At, WellFormed, Tokens, NodeTokens, ElemTokenList, ValueAt;
    ElemParts(input, at, e);
    MemberHeld(tokens, e, at, low);
  }

  lemma KeyQuoted(e: Elem)
    requires WellFormedElem(true, e)
    ensures IsString(e.key)
  {
  }

  /** The key of element k: its token, its text, and the link of the value behind it to the next element. */
  lemma KeyHeld(input: string, tokens: seq<Token>, elems: seq<Elem>, start: nat, first: nat, k: nat)
    requires k < |elems| && At(input, start, ElemsText(true, elems)) && WellFormedElem(true, elems[k])
    requires Holds(tokens, first, ElemsTokenList(true, elems, start, first))
    ensures var e, low := elems[k], first + ElemsTokens(true, elems[..k]);
            && low + 1 < |tokens| && tokens[low] == Token(tokens[low].start, |e.key|, low + 1, String)
            && At(input, tokens[low].start, e.key) && IsString(e.key)
            && tokens[low + 1].after == first + ElemsTokens(true, elems[..k + 1])
  {
    hide *;
    var e, at, low := elems[k], ElemStart(true, elems, start, k), first + ElemsTokens(true, elems[..k]);
    KeysAdvance(true, elems, k);
    KeyQuoted(elems[k]);
    ElemHeld(tokens, true, elems, start, first, k);
    ElemPlaced(input, start, true, elems, k);
    ElemParts(input, at, e);
    MemberHeld(tokens, e, at, low);
  }

  lemma MemberHeld(tokens: seq<Token>, e: Elem, at: nat, low: nat)
    requires Holds(tokens, low, ElemTokenList(true, e, at, low))
    ensures low + 1 < |tokens| && tokens[low] == Token(at + |e.lead|, |e.key|, low + 1, String)
    ensures Holds(tokens, low + 1, NodeTokens(e.value, ValueAt(true, e, at), low + 1))
    ensures tokens[low + 1].after == low + 1 + Tokens(e.value)
  {
    var key := Token(at + |e.lead|, |e.key|, low + 1, String);
    HoldsConcat(tokens, low, [key], NodeTokens(e.value, ValueAt(true, e, at), low + 1));
    assert tokens[low + 0] == [key][0];
    FirstToken(tokens, e.value, ValueAt(true, e, at), low + 1);
  }

  lemma FirstToken(tokens: seq<Token>, n: Node, start: nat, first: nat)
    requires Holds(tokens, first, NodeTokens(n, start, first))
    ensures first < |tokens|
    ensures tokens[first] == Token(start, |Text(n)|, first + Tokens(n), if n.Tree? then TreeKind(n.obj) else n.kind)
  {
    assert tokens[first + 0] == NodeTokens(n, start, first)[0];
  }

  lemma KeysAdvance(obj: bool, elems: seq<Elem>, k: nat)
    requires k < |elems|
    ensures ElemsTokens(obj, elems[..k + 1]) == ElemsTokens(obj, elems[..k]) + (if obj then 1 else 0)
        + Tokens(elems[k].value)
  {
    PrefixOfPrefix(elems, k + 1, k);
  }

  lemma ElemParts(input: string, at: nat, e: Elem)
    requires At(input, at, ElemText(true, e))
    ensures At(input, at + |e.lead|, e.key) && At(input, ValueAt(true, e, at), Text(e.value))
  {
    AtConcat(input, at, e.lead, ElemBody(true, e));
    var head := e.key + e.colonLead + ":" + e.colonAfter;
    AtConcat(input, at + |e.lead|, head + Text(e.value), e.after);
    AtConcat(input, at + |e.lead|, head, Text(e.value));
    AtConcat(input, at + |e.lead|, e.key + e.colonLead + ":", e.colonAfter);
    AtConcat(input, at + |e.lead|, e.key + e.colonLead, ":");
    AtConcat(input, at + |e.lead|, e.key, e.colonLead);
  }

  // ---- The list is a preorder of nested spans ----

  /** Every span lies in [low, high), and every link stays in the list, whose first index is first. */
  ghost predicate Within(ts: seq<Token>, first: nat, low: nat, high: nat) {
    forall i | 0 <= i < |ts| ::
      low <= ts[i].start && ts[i].start + ts[i].size <= high && first + i < ts[i].after <= first + |ts|
  }

  /** A later token lies inside an earlier one, link included, exactly when the earlier link passes it. */
  ghost predicate Nested(ts: seq<Token>, first: nat) {
    forall i, j | 0 <= i < j < |ts| ::
      if first + j < ts[i].after
      then ts[i].start < ts[j].start && ts[j].start + ts[j].size < ts[i].start + ts[i].size
          && ts[j].after <= ts[i].after
      else ts[i].start + ts[i].size <= ts[j].start
  }

  lemma NestedSide(a: seq<Token>, b: seq<Token>, first: nat, low: nat, mid: nat, high: nat)
    requires Nested(a, first) && Within(a, first, low, mid)
    requires Nested(b, first + |a|) && Within(b, first + |a|, mid, high) && low <= mid <= high
    ensures Nested(a + b, first) && Within(a + b, first, low, high)
  {
  }

  lemma NestedUnder(root: Token, b: seq<Token>, first: nat)
    requires root.after == first + 1 + |b| && root.size >= 2
    requires Nested(b, first + 1) && Within(b, first + 1, root.start + 1, root.start + root.size - 1)
    ensures Nested([root] + b, first) && Within([root] + b, first, root.start, root.start + root.size)
  {
    var all := [root] + b;
    assert forall i | 1 <= i < |all| :: all[i] == b[i - 1];
  }

  lemma WithinWider(ts: seq<Token>, first: nat, low: nat, high: nat, wideLow: nat, wideHigh: nat)
    requires Within(ts, first, low, high) && wideLow <= low && high <= wideHigh
    ensures Within(ts, first, wideLow, wideHigh)
  {
  }

  lemma ElemLength(obj: bool, e: Elem, start: nat)
    ensures start + |ElemText(obj, e)| == ValueAt(obj, e, start) + |Text(e.value)| + |e.after|
  {
    hide Text;
  }

  lemma ElemsLength(obj: bool, elems: seq<Elem>, start: nat)
    requires elems != []
    ensures var n := |elems| - 1;
            start + |ElemsText(obj, elems)| == ElemStart(obj, elems, start, n) + |ElemText(obj, elems[n])|
    ensures |Text(Tree(obj, "", elems))| == |ElemsText(obj, elems)| + 2
  {
    hide ElemText;
  }

  lemma {:induction false} NodeNested(n: Node, start: nat, first: nat)
    ensures var ts := NodeTokens(n, start, first); Nested(ts, first) && Within(ts, first, start, start + |Text(n)|)
    decreases n, 0
  {
    match n
    case Leaf(_, _) =>
    case Tree(obj, blank, elems) =>
      ElemsNested(obj, elems, start + 1, first + 1);
      TreeNested(n, start, first);
  }

  lemma TreeNested(n: Node, start: nat, first: nat)
    requires n.Tree?
    requires var ts := ElemsTokenList(n.obj, n.elems, start + 1, first + 1);
             Nested(ts, first + 1) && Within(ts, first + 1, start + 1, start + 1 + |ElemsText(n.obj, n.elems)|)
    ensures var ts := NodeTokens(n, start, first); Nested(ts, first) && Within(ts, first, start, start + |Text(n)|)
  {
    hide Nested, Within, Text, ElemsText, ElemsTokenList;
    TextAround(n);
    var inner := ElemsTokenList(n.obj, n.elems, start + 1, first + 1);
    WithinWider(inner, first + 1, start + 1, start + 1 + |ElemsText(n.obj, n.elems)|, start + 1, start + |Text(n)| - 1);
    NestedUnder(Token(start, |Text(n)|, first + Tokens(n), TreeKind(n.obj)), inner, first);
  }

  lemma TextAround(n: Node)
    requires n.Tree?
    ensures |ElemsText(n.obj, n.elems)| + 2 <= |Text(n)|
  {
    if n.elems != [] {
      ElemsLength(n.obj, n.elems, 0);
    }
  }

  lemma {:induction false} ElemsNested(obj: bool, elems: seq<Elem>, start: nat, first: nat)
    ensures var ts := ElemsTokenList(obj, elems, start, first);
            Nested(ts, first) && Within(ts, first, start, start + |ElemsText(obj, elems)|)
    decreases elems, 0
  {
    hide Nested, Within, ElemsText, ElemTokenList, ElemText, ElemsTokens, Tokens;
    if elems == [] {
      NoneNested(first, start, start + |ElemsText(obj, elems)|);
    } else {
      var n := |elems| - 1;
      var at, index := ElemStart(obj, elems, start, n), first + ElemsTokens(obj, elems[..n]);
      ElemsNested(obj, elems[..n], start, first);
      ElemNested(obj, elems[n], at, index);
      ElemsLength(obj, elems, start);
      var before := ElemsTokenList(obj, elems[..n], start, first);
      WithinWider(before, first, start, start + |ElemsText(obj, elems[..n])|, start, at);
      NestedSide(before, ElemTokenList(obj, elems[n], at, index), first, start, at, at + |ElemText(obj, elems[n])|);
    }
  }

  lemma NoneNested(first: nat, low: nat, high: nat)
    ensures Nested([], first) && Within([], first, low, high)
  {
  }

  lemma {:induction false} ElemNested(obj: bool, e: Elem, start: nat, first: nat)
    ensures var ts := ElemTokenList(obj, e, start, first);
            Nested(ts, first) && Within(ts, first, start, start + |ElemText(obj, e)|)
    decreases e, 1
  {
    hide Nested, Within, ElemText, Text, NodeTokens;
    ElemLength(obj, e, start);
    var value, end := ValueAt(obj, e, start), start + |ElemText(obj, e)|;
    if obj {
      NodeNested(e.value, value, first + 1);
      WithinWider(NodeTokens(e.value, value, first + 1), first + 1, value, value + |Text(e.value)|, value, end);
      var key := Token(start + |e.lead|, |e.key|, first + 1, String);
      OneNested(key, first, start, value);
      NestedSide([key], NodeTokens(e.value, value, first + 1), first, start, value, end);
    } else {
      NodeNested(e.value, value, first);
      WithinWider(NodeTokens(e.value, value, first), first, value, value + |Text(e.value)|, start, end);
    }
  }

  lemma OneNested(t: Token, first: nat, low: nat, high: nat)
    requires t.after == first + 1 && low <= t.start && t.start + t.size <= high
    ensures Nested([t], first) && Within([t], first, low, high)
  {
  }
}
