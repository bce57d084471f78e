// A saved line determines its entry: the JSON text of two different entries
// is never the same, so a decoder of every saved line exists.
module LogDecode {
  import opened Decimal
  import opened LogRecord

  // ----- One character

  function HexValue(c: char): int { if c <= '9' then c as int - 48 else c as int - 87 }

  lemma HexInverse(d: nat)
    requires d < 16
    ensures HexValue(HexChar(d)) == d
  {
    assert HexChar(d) == if d < 10 then (48 + d) as char else (87 + d) as char by {
      var hex := "0123456789abcdef";
      assert hex[0] == '0' && hex[1] == '1' && hex[2] == '2' && hex[3] == '3' && hex[4] == '4';
      assert hex[5] == '5' && hex[6] == '6' && hex[7] == '7';
      assert hex[8] == '8' && hex[9] == '9' && hex[10] == 'a' && hex[11] == 'b';
      assert hex[12] == 'c' && hex[13] == 'd' && hex[14] == 'e' && hex[15] == 'f';
    }
  }

  /** The length of an escape shows in its first two characters. */
  function CodeLength(s: string): nat {
    if |s| < 2 || s[0] != '\\' then 1 else if s[1] == 'u' then 6 else 2
  }

  lemma EscapeLength(c: char, x: string)
    ensures |Escape(c)| == CodeLength(Escape(c) + x)
  {
    hide HexChar;
  }

  /** The character an escape stands for. */
  function Unescape(s: string): int {
    if |s| == 1 then s[0] as int
    else if |s| == 6 then
      if s == "\\u2028" then 0x2028 else if s == "\\u2029" then 0x2029 else 16 * HexValue(s[4]) + HexValue(s[5])
    else if |s| != 2 then -1
    else if s[1] == 'n' then 10
    else if s[1] == 'r' then 13
    else if s[1] == 't' then 9
    else if s[1] == 'b' then 8
    else if s[1] == 'f' then 12
    else s[1] as int
  }

  lemma UnescapeEscape(c: char)
    ensures Unescape(Escape(c)) == c as int
  {
    hide HexChar, HexValue;
    var s := Escape(c);
    if |s| == 6 && c != '\U{2028}' && c != '\U{2029}' {
      HexInverse(c as int / 16);
      HexInverse(c as int % 16);
      assert s[2] == '0';
    }
  }

  /** Escapes are a prefix code. */
  lemma EscapePrefix(c: char, d: char, x: string, y: string)
    requires Escape(c) + x == Escape(d) + y
    ensures c == d && x == y
  {
    hide Escape, CodeLength;
    EscapeLength(c, x);
    EscapeLength(d, y);
    var w, n := Escape(c) + x, |Escape(c)|;
    assert Escape(c) == w[..n] == Escape(d);
    assert x == w[n..] == y;
    UnescapeEscape(c);
    UnescapeEscape(d);
  }

  // ----- One field

  /** A field's text, its closing quote, and what follows. */
  function Quoted(s: string, rest: string): string { EscapeText(s) + ("\"" + rest) }

  lemma QuotedFirst(s: string, rest: string)
    ensures |Quoted(s, rest)| > 0 && (Quoted(s, rest)[0] == '"' <==> s == [])
    ensures s != [] ==> Quoted(s, rest) == Escape(s[0]) + Quoted(s[1..], rest)
    ensures s == [] ==> Quoted(s, rest) == "\"" + rest
  {
  }

  lemma {:induction false} QuotedCut(a: string, b: string, x: string, y: string)
    requires Quoted(a, x) == Quoted(b, y)
    ensures a == b && x == y
  {
    hide Quoted;
    QuotedFirst(a, x);
    QuotedFirst(b, y);
    if a == [] {
      assert x == ("\"" + x)[1..] == ("\"" + y)[1..] == y;
    } else {
      EscapePrefix(a[0], b[0], Quoted(a[1..], x), Quoted(b[1..], y));
      QuotedCut(a[1..], b[1..], x, y);
      assert a == [a[0]] + a[1..] && b == [b[0]] + b[1..];
    }
  }

  // ----- The whole line

  // Each part of a line with the text `z` behind the line.

  function AttrsPart(attrs: string, z: string): string {
    if attrs == [] then "}" + z else ",\"attrs\":\"" + Quoted(attrs, "}" + z)
  }

  function SourcePart(e: Entry, z: string): string { ",\"source\":\"" + Quoted(e.source, AttrsPart(e.attrs, z)) }

  function MessagePart(e: Entry, z: string): string { ",\"msg\":\"" + Quoted(e.message, SourcePart(e, z)) }

  function LevelPart(e: Entry, z: string): string { ",\"level\":\"" + Quoted(e.level, MessagePart(e, z)) }

  function Nested(e: Entry, z: string): string { "{\"ts\":\"" + Quoted(e.ts, LevelPart(e, z)) }

  lemma QuotedTail(p: string, s: string, rest: string, z: string)
    ensures p + Quoted(s, rest) + z == p + Quoted(s, rest + z)
  {
    hide EscapeText;
    var m := EscapeText(s);
    assert p + (m + ("\"" + rest)) + z == p + (m + ("\"" + (rest + z)));
  }

  lemma NestedTail(e: Entry, z: string)
    ensures Nested(e, "") + z == Nested(e, z)
  {
    hide Quoted;
    assert "}" + "" == "}" && "}" + "" + z == "}" + z;
    assert AttrsPart(e.attrs, "") + z == AttrsPart(e.attrs, z) by {
      if e.attrs != [] { QuotedTail(",\"attrs\":\"", e.attrs, "}", z); }
    }
    hide AttrsPart;
    QuotedTail(",\"source\":\"", e.source, AttrsPart(e.attrs, ""), z);
    QuotedTail(",\"msg\":\"", e.message, SourcePart(e, ""), z);
    QuotedTail(",\"level\":\"", e.level, MessagePart(e, ""), z);
    QuotedTail("{\"ts\":\"", e.ts, LevelPart(e, ""), z);
  }

  /** A stretch of three pieces, read as a field. */
  lemma Regroup(p: string, field: string, q: string, r: string, rest: string)
    requires q == "\"" + r
    ensures p + EscapeText(field) + q + rest == p + Quoted(field, r + rest)
  {
    hide EscapeText;
    var m := EscapeText(field);
    assert q + rest == "\"" + (r + rest);
    assert p + m + q + rest == p + (m + (q + rest));
  }

  lemma JoinedFour(a: seq<string>, b: seq<string>, c: seq<string>, d: seq<string>)
    ensures Joined(a + b + c + d) == Joined(a) + (Joined(b) + (Joined(c) + Joined(d)))
  {
    hide Joined;
    assert a + b + c + d == a + (b + (c + d));
    JoinedConcat(a, b + (c + d));
    JoinedConcat(b, c + d);
    JoinedConcat(c, d);
  }

  function LastPieces(e: Entry): seq<string> {
    [EscapeText(e.source)] + (if e.attrs == [] then ["\"}"] else ["\",\"attrs\":\"", EscapeText(e.attrs), "\"}"])
  }

  lemma LastPiecesAre(e: Entry)
    ensures Joined(LastPieces(e)) == Quoted(e.source, AttrsPart(e.attrs, ""))
  {
    hide EscapeText, Joined;
    assert "}" + "" == "}";
    JoinedOne(EscapeText(e.source));
    if e.attrs == [] {
      JoinedConcat([EscapeText(e.source)], ["\"}"]);
      JoinedOne("\"}");
      assert "\"}" == "\"" + "}";
    } else {
      var ps := ["\",\"attrs\":\"", EscapeText(e.attrs), "\"}"];
      JoinedConcat([EscapeText(e.source)], ps);
      JoinedThree(ps);
      Regroup("\",\"attrs\":\"", e.attrs, "\"}", "}", "");
      assert ps[0] + ps[1] + ps[2] + "" == ps[0] + ps[1] + ps[2];
      assert "\",\"attrs\":\"" == "\"" + ",\"attrs\":\"";
      var q := Quoted(e.attrs, "}");
      hide Quoted;
      assert ("\"" + ",\"attrs\":\"") + q == "\"" + (",\"attrs\":\"" + q);
    }
  }

  lemma MarshalIsNested(e: Entry)
    ensures Marshal(e) == Nested(e, "")
  {
    hide EscapeText, Joined;
    var a := ["{\"ts\":\"", EscapeText(e.ts), "\","];
    var b := ["\"level\":\"", EscapeText(e.level), "\""];
    var c := [",\"msg\":\"", EscapeText(e.message), "\",\"source\":\""];
    assert Pieces(e) == a + b + c + LastPieces(e);
    JoinedFour(a, b, c, LastPieces(e));
    JoinedThree(a);
    JoinedThree(b);
    JoinedThree(c);
    LastPiecesAre(e);
    hide Quoted, AttrsPart, LastPieces, Pieces;
    var last := Quoted(e.source, AttrsPart(e.attrs, ""));
    Regroup(",\"msg\":\"", e.message, "\",\"source\":\"", ",\"source\":\"", last);
    Regroup("\"level\":\"", e.level, "\"", "", MessagePart(e, ""));
    assert "" + MessagePart(e, "") == MessagePart(e, "");
    var level := Quoted(e.level, MessagePart(e, ""));
    Regroup("{\"ts\":\"", e.ts, "\",", ",", "\"level\":\"" + level);
    assert "," + ("\"level\":\"" + level) == ",\"level\":\"" + level;
  }

  /** Lines are a prefix code: no line is the beginning of another, and equal lines are of one entry. */
  lemma MarshalPrefixFree(e: Entry, f: Entry, x: string, y: string)
    requires Marshal(e) + x == Marshal(f) + y
    ensures e == f && x == y
  {
    MarshalIsNested(e);
    MarshalIsNested(f);
    NestedTail(e, x);
    NestedTail(f, y);
    hide Marshal, Quoted, AttrsPart;
    Prefix("{\"ts\":\"", Quoted(e.ts, LevelPart(e, x)), Quoted(f.ts, LevelPart(f, y)));
    QuotedCut(e.ts, f.ts, LevelPart(e, x), LevelPart(f, y));
    Prefix(",\"level\":\"", Quoted(e.level, MessagePart(e, x)), Quoted(f.level, MessagePart(f, y)));
    QuotedCut(e.level, f.level, MessagePart(e, x), MessagePart(f, y));
    Prefix(",\"msg\":\"", Quoted(e.message, SourcePart(e, x)), Quoted(f.message, SourcePart(f, y)));
    QuotedCut(e.message, f.message, SourcePart(e, x), SourcePart(f, y));
    Prefix(",\"source\":\"", Quoted(e.source, AttrsPart(e.attrs, x)), Quoted(f.source, AttrsPart(f.attrs, y)));
    QuotedCut(e.source, f.source, AttrsPart(e.attrs, x), AttrsPart(f.attrs, y));
    AttrsCut(e.attrs, f.attrs, x, y);
  }

  lemma AttrsCut(a: string, b: string, x: string, y: string)
    requires AttrsPart(a, x) == AttrsPart(b, y)
    ensures a == b && x == y
  {
    hide Quoted;
    assert AttrsPart(a, x)[0] == if a == [] then '}' else ',';
    assert AttrsPart(b, y)[0] == if b == [] then '}' else ',';
    if a != [] {
      Prefix(",\"attrs\":\"", Quoted(a, "}" + x), Quoted(b, "}" + y));
      QuotedCut(a, b, "}" + x, "}" + y);
    }
    Prefix("}", x, y);
  }

  /** Two entries with the same line are the same entry. */
  lemma MarshalInjective(e: Entry, f: Entry)
    requires Marshal(e) == Marshal(f)
    ensures e == f
  {
    hide Marshal;
    assert Marshal(e) + [] == Marshal(f) + [];
    MarshalPrefixFree(e, f, [], []);
  }

  lemma Prefix(p: string, x: string, y: string)
    requires p + x == p + y
    ensures x == y
  {
    assert x == (p + x)[|p|..] == (p + y)[|p|..] == y;
  }

  // ----- A decoder

  ghost predicate Encodes(line: string, e: Entry) { Marshal(e) == line }

  /** The entry a line was written for. */
  ghost function Decode(line: string): Option<Entry> {
    if exists e :: Encodes(line, e) then
      var e :| Encodes(line, e);
      Some(e)
    else None
  }

  /** Every saved line decodes to its own entry. */
  lemma DecodeMarshal(e: Entry)
    ensures Decode(Marshal(e)) == Some(e)
  {
    hide Marshal;
    assert Encodes(Marshal(e), e);
    MarshalInjective(e, Decode(Marshal(e)).value);
  }

  /** Half a line decodes to nothing. */
  lemma DecodeHalf(e: Entry, k: nat)
    requires k < |Marshal(e)|
    ensures Decode(Marshal(e)[..k]).None?
  {
    hide Marshal;
    var half, rest := Marshal(e)[..k], Marshal(e)[k..];
    if Decode(half).Some? {
      var f := Decode(half).value;
      assert Marshal(f) + rest == Marshal(e) + [];
      MarshalPrefixFree(f, e, rest, []);
    }
  }
}
