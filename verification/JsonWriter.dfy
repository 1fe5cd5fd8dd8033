/** The bounded writer of JSON text, and what the reader makes of what it writes. */
module JsonWriter {
  import opened Core
  import opened JsonText
  import opened JsonParser
  import opened JsonExact
  import opened JsonReader

  // ---- Strings ----

  /** A lower-case hexadecimal digit. */
  function HexDigit(n: nat): (c: char)
    requires n < 16
    ensures IsHex(c) && HexValue(c) == n
  {
    if n < 10 then '0' + n as char else 'a' + (n - 10) as char
  }

  /** A character is a byte here: only the low eight bits of it count. */
  function Low(c: char): char {
    (c as nat % 256) as char
  }

  function Escaped(character: char): string {
    var c := Low(character);
    if c == '"' then "\\\""
    else if c == '\\' then "\\\\"
    else if c < 32 as char || c > 126 as char then "\\u00" + [HexDigit(c as nat / 16), HexDigit(c as nat % 16)]
    else [c]
  }

  function EscapedAll(s: string): string
  {
    if s == "" then "" else Escaped(s[0]) + EscapedAll(s[1..])
  }

  function Quoted(s: string): string
  {
    "\"" + EscapedAll(s) + "\""
  }

  /** Nonzero ASCII. */
  predicate Ascii(s: string) {
    forall i | 0 <= i < |s| :: 0 as char < s[i] < 128 as char
  }

  lemma EscapedItem(c: char, rest: string)
    ensures var b := Escaped(c) + rest;
            && ItemSize(b) == |Escaped(c)| > 0 && b[ItemSize(b)..] == rest
            && (0 as char < c < 128 as char ==> ItemValue(b) == Some(c))
  {
    var b, low := Escaped(c) + rest, Low(c);
    if low != '"' && low != '\\' && (low < 32 as char || low > 126 as char) {
      assert b[0] == '\\' && b[1] == 'u' && b[2] == '0' && b[3] == '0';
      assert b[4] == HexDigit(low as nat / 16) && b[5] == HexDigit(low as nat % 16);
    }
  }

  lemma {:induction false} EscapedBody(s: string)
    ensures StringBody(EscapedAll(s))
    ensures Ascii(s) ==> Decode(EscapedAll(s)) == Some(s)
  {
    hide Escaped, ItemSize, ItemValue;
    if s != "" {
      EscapedBody(s[1..]);
      EscapedItem(s[0], EscapedAll(s[1..]));
      assert s == [s[0]] + s[1..];
    }
  }

  lemma QuotedInside(s: string)
    ensures |Quoted(s)| >= 2 && Inside(Quoted(s)) == EscapedAll(s)
    ensures Quoted(s)[0] == '"' && Quoted(s)[|Quoted(s)| - 1] == '"'
  {
    hide EscapedAll;
  }

  lemma QuotedString(s: string)
    ensures IsString(Quoted(s)) && |Quoted(s)| >= 2 && (Ascii(s) ==> Decode(Inside(Quoted(s))) == Some(s))
  {
    hide Quoted, EscapedAll, StringBody, Decode;
    QuotedInside(s);
    EscapedBody(s);
  }

  /** A string written by the writer is read back: the reader accepts it and gives the same characters. */
  lemma StringRoundTrip(s: string)
    requires Ascii(s) && |Quoted(s)| <= INPUT_MAX
    ensures ParseText(Quoted(s)) == Done(Leaf(String, Quoted(s)), |Quoted(s)|)
    ensures forall capacity: nat | capacity > |s| :: Readable(Quoted(s), capacity) == Some(s)
  {
    hide Quoted, Decode, ParseText, IsString;
    QuotedString(s);
    var n := Leaf(String, Quoted(s));
    LeafTokens(String, Quoted(s));
    assert Quoted(s) == "" + Text(n) + "";
    assert Reads(Quoted(s), "", n, "");
    ReadsIsParsed(Quoted(s), "", n, "");
  }

  lemma {:induction false} EscapedGrows(s: string, c: char)
    ensures EscapedAll(s + [c]) == EscapedAll(s) + Escaped(c)
  {
    hide Escaped;
    if s == "" {
      assert (s + [c])[1..] == "" && EscapedAll("") == "";
    } else {
      EscapedGrows(s[1..], c);
      assert (s + [c])[1..] == s[1..] + [c];
    }
  }

  // ---- Numbers ----

  function Natural(n: nat): (t: string)
    ensures t != "" && AllDigits(t)
  {
    (if n < 10 then "" else Natural(n / 10)) + ['0' + (n % 10) as char]
  }

  /** "%lld" */
  function Decimal(n: int): string {
    if n < 0 then "-" + Natural(-n) else Natural(n)
  }

  lemma {:induction false} NaturalValue(n: nat)
    ensures DigitsValue(Natural(n)) == n && (n > 0 ==> Natural(n)[0] != '0') && (n == 0 ==> Natural(n) == "0")
  {
    var t := Natural(n);
    if n >= 10 {
      NaturalValue(n / 10);
      assert t[..|t| - 1] == Natural(n / 10);
    } else {
      assert t[..|t| - 1] == "";
    }
  }

  /** A 64-bit number written in decimal is a number of the grammar, and is read back. */
  lemma DecimalReads(n: int)
    requires -0x8000_0000_0000_0000 <= n < 0x8000_0000_0000_0000
    ensures IsNumber(Decimal(n)) && IntegerOf(Decimal(n)) == Some(n)
  {
    hide Natural, DigitsValue, NumberOf, IsInteger;
    var size: nat := if n < 0 then -n else n;
    NaturalValue(size);
    WholeNumber(Natural(size), if n < 0 then "-" else "");
    if n < 0 {
      assert ("-" + Natural(size))[1..] == Natural(size);
    } else {
      assert "" + Natural(size) == Natural(size);
    }
  }

  lemma WholeNumber(digits: string, sign: string)
    requires (sign == "" || sign == "-") && digits != "" && AllDigits(digits) && (digits[0] != '0' || digits == "0")
    ensures IsNumber(sign + digits)
  {
    assert sign + digits == sign + digits + "" + "";
    assert NumberOf(sign + digits, sign, digits, "", "");
  }

  // ---- The writer ----

  class Writer {
    const out: array<char>
    var used: nat
    var ok: bool
    /** All that was offered to the writer. */
    ghost var total: string

    ghost predicate Valid()
      reads this, out
    {
      && used < out.Length && (ok <==> |total| < out.Length)
      && (ok ==> used == |total| && out[..used] == total)
    }

    constructor (buffer: array<char>)
      requires buffer.Length > 0
      ensures Valid() && out == buffer && total == ""
    {
      out, used, ok, total := buffer, 0, true, "";
    }

    /** All or nothing: what does not fit with its terminator is not begun, and neither is anything after it. */
    method Text(s: string)
      requires Valid()
      modifies this, out
      ensures Valid() && total == old(total) + s
    {
      total := total + s;
      if !ok || |s| >= out.Length - used {
        ok := false;
        return;
      }
      for i := 0 to |s|
        invariant used == old(used) && used + |s| < out.Length && ok && total == old(total) + s
        invariant out[..used + i] == old(out[..used]) + s[..i]
      {
        out[used + i] := s[i];
        assert out[..used + i + 1] == out[..used + i] + [s[i]];
      }
      assert s[..|s|] == s;
      used := used + |s|;
      assert out[..used] == total;
      out[used] := NUL;
    }

    method Number(n: int)
      requires Valid()
      modifies this, out
      ensures Valid() && total == old(total) + Decimal(n)
    {
      Text(Decimal(n));
    }

    method String(s: string)
      requires Valid()
      modifies this, out
      ensures Valid() && total == old(total) + Quoted(s)
    {
      hide Escaped, EscapedAll;
      Text("\"");
      EscapedNothing();
      for i := 0 to |s|
        invariant Valid() && total == old(total) + "\"" + EscapedAll(s[..i])
      {
        assert s[..i + 1] == s[..i] + [s[i]];
        EscapedGrows(s[..i], s[i]);
        Text(Escaped(s[i]));
        assert total == old(total) + "\"" + EscapedAll(s[..i + 1]);
      }
      assert s[..|s|] == s;
      Text("\"");
      assert total == old(total) + Quoted(s);
    }

    /** The length of the complete text, 0 when it did not fit. */
    method Size() returns (n: nat)
      requires Valid()
      ensures n == if |total| < out.Length then |total| else 0
      ensures n > 0 ==> n < out.Length && out[..n] == total
    {
      return if ok then used else 0;
    }
  }

  lemma EscapedNothing()
    ensures EscapedAll("") == ""
  {
  }

  method JsonEscape(s: string, output: array<char>) returns (n: nat)
    modifies output
    ensures n == if |Quoted(s)| < output.Length then |Quoted(s)| else 0
    ensures n > 0 ==> n < output.Length && output[..n] == Quoted(s)
  {
    if output.Length == 0 {
      return 0;
    }
    var w := new Writer(output);
    w.String(s);
    n := w.Size();
  }
}
