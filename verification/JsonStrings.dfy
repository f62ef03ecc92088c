/** What an escaped excerpt means: read as a JSON string (RFC 8259, section 7), it is the excerpt again. */
module JsonStrings {
  import opened JsonRecords
  import opened Slices
  import opened Text

  // --- reading a string ---

  function HexValue(c: char): Option<nat> {
    if '0' <= c <= '9' then Some(c as int - '0' as int)
    else if 'a' <= c <= 'f' then Some(c as int - 'a' as int + 10)
    else if 'A' <= c <= 'F' then Some(c as int - 'A' as int + 10)
    else None
  }

  /** The character that the letter after a backslash stands for, except `u`. */
  function ShortEscape(c: char): Option<char> {
    if c == '"' || c == '\\' || c == '/' then Some(c)
    else if c == 'b' then Some(0x08 as char)
    else if c == 'f' then Some(0x0C as char)
    else if c == 'n' then Some(0x0A as char)
    else if c == 'r' then Some(0x0D as char)
    else if c == 't' then Some(0x09 as char)
    else None
  }

  /** One character of a string, and how many characters of the text it takes. */
  datatype Read = Read(value: char, width: nat) | Ends | Malformed

  /** What the text starts with inside a string: a character, the closing quote, or something that is not JSON. Of the
      numbered escapes only those below U+0100 are read. */
  function ReadChar(t: string): Read {
    if t == "" || (t[0] as int) < 0x20 then Malformed
    else if t[0] == '"' then Ends
    else if t[0] != '\\' then Read(t[0], 1)
    else if |t| < 2 then Malformed
    else if t[1] == 'u' then ReadNumbered(t)
    else if ShortEscape(t[1]).Some? then Read(ShortEscape(t[1]).value, 2)
    else Malformed
  }

  function ReadNumbered(t: string): Read {
    if |t| < 6 || t[2] != '0' || t[3] != '0' || HexValue(t[4]).None? || HexValue(t[5]).None? then Malformed
    else Read((16 * HexValue(t[4]).value + HexValue(t[5]).value) as char, 6)
  }

  /** The characters up to the closing quote, and the text after that quote. */
  function ReadString(t: string): (r: Option<(string, string)>)
    decreases |t|
  {
    match ReadChar(t)
    case Malformed => None
    case Ends => Some(("", t[1..]))
    case Read(c, width) =>
      if width == 0 || width > |t| then None
      else
        match ReadString(t[width..])
        case None => None
        case Some(p) => Some(([c] + p.0, p.1))
  }

  // --- escaped text reads back ---

  lemma {:induction false} ReadsEscape(c: char, rest: string)
    ensures ReadChar(EscapeChar(c) + rest) == Read(c, |EscapeChar(c)|)
  {
    var e := EscapeChar(c);
    if (c as int) < 0x20 && |e| == 6 {
      var high, low := c as int / 16, c as int % 16;
      assert e == "\\u00" + [HexDigit(high), HexDigit(low)];
      assert HexValue(HexDigit(high)) == Some(high) && HexValue(HexDigit(low)) == Some(low);
      var t := e + rest;
      assert t[0] == '\\' && t[1] == 'u' && t[2] == '0' && t[3] == '0';
      assert t[4] == HexDigit(high) && t[5] == HexDigit(low);
    }
  }

  /** An escaped text and a closing quote, whatever follows, read back as exactly the text; so no quote or control
      character of the text ends or breaks the string. */
  lemma {:induction false} EscapedReadsBack(s: string, after: string)
    ensures ReadString(Escape(s) + "\"" + after) == Some((s, after))
    decreases |s|
  {
    if s == "" {
      assert "" + "\"" + after == "\"" + after;
      assert ("\"" + after)[1..] == after;
    } else {
      var c, rest := s[0], Escape(s[1..]) + "\"" + after;
      EscapedReadsBack(s[1..], after);
      ReadsEscape(c, rest);
      var e := EscapeChar(c);
      assert Escape(s) + "\"" + after == e + rest;
      JoinCut(e, rest);
      HeadTail(s);
      hide ReadChar, EscapeChar, Escape;
      assert (e + rest)[|e|..] == rest;
    }
  }

  /** Only quotes, backslashes and control characters are escaped, with two characters where JSON has a short form and
      with six otherwise. */
  lemma {:induction false} EscapeWidth(c: char)
    ensures var short := c == '"' || c == '\\' || c as int in {0x08, 0x09, 0x0A, 0x0C, 0x0D};
            |EscapeChar(c)| == if short then 2 else if (c as int) < 0x20 then 6 else 1
    ensures |EscapeChar(c)| == 1 ==> EscapeChar(c) == [c]
  {
  }

  // --- the list of records ---

  /** The texts with commas between them. */
  function Commas(texts: seq<string>): string {
    if texts == [] then ""
    else if |texts| == 1 then texts[0]
    else texts[0] + "," + Commas(texts[1..])
  }

  lemma {:induction false} CommasSnoc(texts: seq<string>, text: string)
    requires texts != []
    ensures Commas(texts + [text]) == Commas(texts) + "," + text
    decreases |texts|
  {
    var more := texts + [text];
    if |texts| == 1 {
      assert more[1..] == [text];
    } else {
      assert more[1..] == texts[1..] + [text];
      CommasSnoc(texts[1..], text);
      assert texts[0] + "," + (Commas(texts[1..]) + "," + text) == texts[0] + "," + Commas(texts[1..]) + "," + text;
    }
  }

  function Texts(records: seq<Record>): (r: seq<string>)
    ensures |r| == |records|
  {
    seq(|records|, i requires 0 <= i < |records| => records[i].base.before + Escape(records[i].excerpt)
      + records[i].base.after)
  }

  lemma {:induction false} BodyIsCommas(records: seq<Record>)
    ensures Body(records) == Commas(Texts(records))
    decreases |records|
  {
    hide Escape;
    if |records| > 1 {
      var front, last := records[..|records| - 1], records[|records| - 1];
      BodyIsCommas(front);
      assert Texts(records) == Texts(front) + [RecordText(last)];
      CommasSnoc(Texts(front), RecordText(last));
    }
  }

  /** The context is a bracketed list of its records, comma by comma, each excerpt escaped between the two halves of its
      record. */
  lemma {:induction false} ContextIsList(records: seq<Record>)
    ensures JsonText(records) == "[" + Commas(Texts(records)) + "]"
  {
    BodyIsCommas(records);
    hide Body, Commas, Texts;
  }
}
