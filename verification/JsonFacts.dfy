/** What the strings of a JSON text stand for, escape by escape. */
module JsonFacts {
  import opened Core
  import opened JsonText
  import opened JsonReader

  /** The character that a backslash and this letter stand for. */
  function Meant(letter: char): Option<char> {
    match letter
    case '"' => Some(34 as char)
    case '\\' => Some(92 as char)
    case '/' => Some(47 as char)
    case 'b' => Some(8 as char)
    case 'f' => Some(12 as char)
    case 'n' => Some(10 as char)
    case 'r' => Some(13 as char)
    case 't' => Some(9 as char)
    case _ => None
  }

  function Digit(c: char): Option<nat> {
    if 48 as char <= c <= 57 as char then Some(c as nat - 48)
    else if 97 as char <= c <= 102 as char then Some(c as nat - 87)
    else if 65 as char <= c <= 70 as char then Some(c as nat - 55)
    else None
  }

  function Joined(c: Option<char>, rest: Option<string>): Option<string> {
    if c.Some? && rest.Some? then Some([c.value] + rest.value) else None
  }

  /** A plain character stands for itself: those from 32 to 127 but the quote and the backslash. */
  lemma PlainDecodes(c: char, rest: string)
    requires 32 <= c as nat <= 127 && c as nat != 34 && c as nat != 92
    ensures StringBody([c] + rest) == StringBody(rest) && Decode([c] + rest) == Joined(Some(c), Decode(rest))
  {
    var b := [c] + rest;
    assert ItemSize(b) == 1 && b[1..] == rest;
  }

  /** A backslash and one letter stand for one character, or the string is none. */
  lemma EscapeDecodes(letter: char, rest: string)
    requires letter != 'u'
    ensures Meant(letter).Some? ==>
              var b := ['\\', letter] + rest;
              StringBody(b) == StringBody(rest) && Decode(b) == Joined(Meant(letter), Decode(rest))
    ensures Meant(letter).None? ==> !StringBody(['\\', letter] + rest)
  {
    var b := ['\\', letter] + rest;
    EscapeLetter(letter);
    if Meant(letter).Some? {
      assert ItemSize(b) == 2 && b[2..] == rest;
      assert ItemValue(b) == Meant(letter);
    } else {
      assert ItemSize(b) == 0;
    }
  }

  lemma EscapeLetter(letter: char)
    ensures IsEscape(letter) <==> Meant(letter).Some?
  {
    var s := "\"\\/bfnrt";
    assert s[0] == '"' && s[1] == '\\' && s[2] == '/' && s[3] == 'b' && s[4] == 'f' && s[5] == 'n' && s[6] == 'r'
        && s[7] == 't';
  }

  lemma DigitIs(c: char)
    ensures IsHex(c) <==> Digit(c).Some?
    ensures IsHex(c) ==> HexValue(c) == Digit(c).value
  {
  }

  /** Four hexadecimal digits stand for the character of that number; the reader takes it only from 1 to 127. */
  lemma UnicodeDecodes(a: char, b: char, c: char, d: char, rest: string)
    requires Digit(a).Some? && Digit(b).Some? && Digit(c).Some? && Digit(d).Some?
    ensures var s, n := ['\\', 'u', a, b, c, d] + rest,
                4096 * Digit(a).value + 256 * Digit(b).value + 16 * Digit(c).value + Digit(d).value;
            && StringBody(s) == StringBody(rest)
            && Decode(s) == if 1 <= n <= 127 then Joined(Some(n as char), Decode(rest)) else None
  {
    hide HexValue, Digit;
    var s := ['\\', 'u', a, b, c, d] + rest;
    DigitIs(a);
    DigitIs(b);
    DigitIs(c);
    DigitIs(d);
    EscapeLetter('u');
    assert ItemSize(s) == 6 && s[6..] == rest;
  }

  /** Nothing else is part of a string. */
  lemma NoOtherItem(c: char, rest: string)
    requires c as nat < 32 || c as nat > 127 || c as nat == 34
    ensures !StringBody([c] + rest) && Decode([c] + rest).None?
  {
  }

  /** A token is readable if its value, with the terminator, fits. */
  lemma ReadableIs(body: string, capacity: nat)
    ensures Readable("\"" + body + "\"", capacity)
         == if Decode(body).Some? && |Decode(body).value| + 1 <= capacity then Decode(body) else None
  {
    hide Decode;
    assert Inside("\"" + body + "\"") == body;
  }
}
