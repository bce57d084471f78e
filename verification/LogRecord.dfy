// One saved log line: the JSON text of an entry, the timestamp read off its
// front, and the raw-text checks that skip a line before it is decoded.
module LogRecord {
  import opened Decimal
  import opened LowerCase

  datatype Entry = Entry(ts: string, level: string, message: string, source: string, attrs: string)

  // ----- JSON text

  function HexChar(d: nat): char
    requires d < 16
  {
    "0123456789abcdef"[d]
  }

  /** Whether encoding/json writes the character as an escape, HTML escaping on. */
  predicate Escaped(c: char) {
    c < ' ' || c in "\"\\<>&" || c == '\U{2028}' || c == '\U{2029}'
  }

  function Escape(c: char): (s: string)
    ensures Escaped(c) ==> |s| > 1 && s[0] == '\\'
    ensures !Escaped(c) ==> s == [c]
    ensures forall i :: 0 <= i < |s| ==> ' ' <= s[i]
  {
    if !Escaped(c) then [c]
    else if c == '"' || c == '\\' then ['\\', c]
    else if c == '\n' then "\\n"
    else if c == '\r' then "\\r"
    else if c == '\t' then "\\t"
    else if c as int == 8 then "\\b"
    else if c as int == 12 then "\\f"
    else if c == '\U{2028}' then "\\u2028"
    else if c == '\U{2029}' then "\\u2029"
    else "\\u00" + [HexChar(c as int / 16), HexChar(c as int % 16)]
  }

  function EscapeText(s: string): string {
    if s == [] then [] else Escape(s[0]) + EscapeText(s[1..])
  }

  /** json.Marshal of an entry, piece by piece; attrs is left out when empty. */
  function Pieces(e: Entry): seq<string> {
    ["{\"ts\":\"", EscapeText(e.ts), "\",",
     "\"level\":\"", EscapeText(e.level), "\"",
     ",\"msg\":\"", EscapeText(e.message), "\",\"source\":\"", EscapeText(e.source)] +
    (if e.attrs == [] then ["\"}"] else ["\",\"attrs\":\"", EscapeText(e.attrs), "\"}"])
  }

  function Marshal(e: Entry): string { Joined(Pieces(e)) }

  function Joined(ps: seq<string>): string {
    if ps == [] then [] else ps[0] + Joined(ps[1..])
  }

  lemma {:induction false} JoinedConcat(a: seq<string>, b: seq<string>)
    ensures Joined(a + b) == Joined(a) + Joined(b)
  {
    if a == [] {
      assert a + b == b;
    } else {
      assert (a + b)[1..] == a[1..] + b;
      JoinedConcat(a[1..], b);
    }
  }

  lemma CutTwice<T>(s: seq<T>, i: nat, j: nat)
    requires i <= j <= |s|
    ensures s == s[..j] + s[j..] && s[..j] == s[..i] + s[i..j]
  {
  }

  /** A stretch of pieces stands in the whole. */
  lemma JoinedStretch(ps: seq<string>, i: nat, j: nat)
    requires i <= j <= |ps|
    ensures Joined(ps) == Joined(ps[..i]) + Joined(ps[i..j]) + Joined(ps[j..])
  {
    hide Joined;
    CutTwice(ps, i, j);
    JoinedConcat(ps[..j], ps[j..]);
    JoinedConcat(ps[..i], ps[i..j]);
  }

  lemma JoinedOne(p: string)
    ensures Joined([p]) == p
  {
    assert [p][1..] == [];
    assert Joined([]) == [];
  }

  lemma {:induction false} EscapeTextConcat(a: string, b: string)
    ensures EscapeText(a + b) == EscapeText(a) + EscapeText(b)
  {
    hide Escape;
    if a == [] {
      assert a + b == b;
    } else {
      assert (a + b)[1..] == a[1..] + b;
      EscapeTextConcat(a[1..], b);
    }
  }

  predicate Plain(s: string) { forall i :: 0 <= i < |s| ==> !Escaped(s[i]) }

  lemma {:induction false} EscapePlain(s: string)
    requires Plain(s)
    ensures EscapeText(s) == s
  {
    hide Escaped, Escape;
    if s != [] { EscapePlain(s[1..]); }
  }

  predicate Printable(s: string) { forall i :: 0 <= i < |s| ==> ' ' <= s[i] }

  lemma {:induction false} EscapeTextPrintable(s: string)
    ensures Printable(EscapeText(s))
  {
    hide Escaped, Escape;
    if s != [] { EscapeTextPrintable(s[1..]); }
  }

  lemma {:induction false} JoinedPrintable(ps: seq<string>)
    requires forall i :: 0 <= i < |ps| ==> Printable(ps[i])
    ensures Printable(Joined(ps))
  {
    if ps != [] { JoinedPrintable(ps[1..]); }
  }

  /** A saved line never holds a newline or any other control character. */
  lemma MarshalPrintable(e: Entry)
    ensures Printable(Marshal(e)) && Marshal(e) != []
  {
    hide EscapeText;
    EscapeTextPrintable(e.ts);
    EscapeTextPrintable(e.level);
    EscapeTextPrintable(e.message);
    EscapeTextPrintable(e.source);
    EscapeTextPrintable(e.attrs);
    assert forall p :: p in Pieces(e) ==> Printable(p);
    JoinedPrintable(Pieces(e));
    assert Pieces(e)[0] != [];
  }

  // ----- Searching

  predicate OccursAt(s: string, t: string, i: nat) { i + |t| <= |s| && s[i..i + |t|] == t }

  predicate Contains(s: string, t: string) { exists i :: 0 <= i <= |s| - |t| && OccursAt(s, t, i) }

  lemma ContainsMiddle(a: string, t: string, b: string)
    ensures Contains(a + t + b, t)
  {
    assert OccursAt(a + t + b, t, |a|);
  }

  lemma ContainsWithin(a: string, s: string, b: string, t: string)
    requires Contains(s, t)
    ensures Contains(a + s + b, t)
  {
    var i :| 0 <= i <= |s| - |t| && OccursAt(s, t, i);
    assert OccursAt(a + s + b, t, |a| + i);
  }

  predicate Searchable(c: char) { ' ' <= c <= '\U{7f}' && c !in "\"\\<>&" }

  predicate RawSearchable(text: string) { forall i :: 0 <= i < |text| ==> Searchable(text[i]) }

  /** Lower-casing never turns a character JSON escapes into one a raw search may look for. */
  ghost predicate EscapesStayEscaped(lower: char -> char) {
    forall c :: Escaped(c) ==> !Searchable(lower(c))
  }

  /** A raw-searchable text found in a field is found in the field's JSON text too. */
  lemma SearchSurvivesEscaping(lower: char -> char, field: string, text: string)
    requires EscapesStayEscaped(lower) && RawSearchable(text) && Contains(Lower(lower, field), text)
    ensures Contains(Lower(lower, EscapeText(field)), text)
  {
    hide EscapeText, Searchable, Escaped;
    var n := |text|;
    var i :| 0 <= i <= |field| - n && OccursAt(Lower(lower, field), text, i);
    var mid := field[i..i + n];
    forall j | 0 <= j < n ensures lower(mid[j]) == text[j] && !Escaped(mid[j]) {
      assert Lower(lower, field)[i..i + n][j] == text[j];
    }
    EscapePlain(mid);
    EscapeTextMiddle(field, i, i + n);
    var a, b := EscapeText(field[..i]), EscapeText(field[i + n..]);
    assert Lower(lower, mid) == text;
    LowerSplit(lower, a, mid, b);
    ContainsMiddle(Lower(lower, a), text, Lower(lower, b));
  }

  lemma EscapeTextMiddle(field: string, i: nat, j: nat)
    requires i <= j <= |field|
    ensures EscapeText(field) == EscapeText(field[..i]) + EscapeText(field[i..j]) + EscapeText(field[j..])
  {
    hide EscapeText;
    CutTwice(field, i, j);
    EscapeTextConcat(field[..j], field[j..]);
    EscapeTextConcat(field[..i], field[i..j]);
  }

  // ----- The query's filter

  datatype Query = Query(from: Option<nat>, to: nat, levels: Option<set<string>>, text: string, limit: nat)

  const LEVELS: set<string> := {"DEBUG", "INFO", "WARN", "ERROR"}

  function LevelTag(level: string): string { "\"level\":\"" + level + "\"" }

  /** What a decoded entry must satisfy. */
  predicate Matches(lower: char -> char, q: Query, e: Entry) {
    && (q.levels.Some? ==> e.level in q.levels.value)
    && (q.text != [] ==>
          || Contains(Lower(lower, e.message), q.text)
          || Contains(Lower(lower, e.source), q.text)
          || Contains(Lower(lower, e.attrs), q.text))
  }

  /** What the raw line must satisfy before it is decoded. */
  predicate RawChecks(lower: char -> char, q: Query, line: string) {
    && (q.levels.Some? ==> exists level :: level in q.levels.value && Contains(line, LevelTag(level)))
    && (q.text != [] && RawSearchable(q.text) ==> Contains(Lower(lower, line), q.text))
  }

  /** The levels a query may name are the four the parser accepts. */
  predicate ValidQuery(q: Query) {
    q.limit > 0 && (q.levels.Some? ==> q.levels.value <= LEVELS)
  }

  lemma LevelIsPlain(level: string)
    requires level in LEVELS
    ensures Plain(level)
  {
  }

  lemma TagInLine(e: Entry)
    requires Plain(e.level)
    ensures Contains(Marshal(e), LevelTag(e.level))
  {
    EscapePlain(e.level);
    var ps := Pieces(e);
    JoinedStretch(ps, 3, 6);
    JoinedThree(ps[3..6]);
    hide EscapeText, Contains, Joined;
    assert ps[3] + ps[4] + ps[5] == LevelTag(e.level);
    ContainsMiddle(Joined(ps[..3]), LevelTag(e.level), Joined(ps[6..]));
  }

  lemma JoinedThree(ps: seq<string>)
    requires |ps| == 3
    ensures Joined(ps) == ps[0] + ps[1] + ps[2]
  {
    assert ps == ([ps[0]] + [ps[1]]) + [ps[2]];
    JoinedConcat([ps[0]] + [ps[1]], [ps[2]]);
    JoinedConcat([ps[0]], [ps[1]]);
    JoinedOne(ps[0]);
    JoinedOne(ps[1]);
    JoinedOne(ps[2]);
  }

  /** Each searched field stands in the line as its JSON text. */
  lemma FieldInLine(e: Entry, field: string) returns (a: string, b: string)
    requires field == e.message || field == e.source || (field == e.attrs && field != [])
    ensures Marshal(e) == a + EscapeText(field) + b
  {
    hide EscapeText, Joined;
    var ps := Pieces(e);
    var i := if field == e.message then 7 else if field == e.source then 9 else 11;
    assert ps[i] == EscapeText(field);
    assert ps[i..i + 1] == [ps[i]];
    JoinedStretch(ps, i, i + 1);
    JoinedOne(ps[i]);
    a, b := Joined(ps[..i]), Joined(ps[i + 1..]);
  }

  lemma LowerSplit(lower: char -> char, a: string, s: string, b: string)
    ensures Lower(lower, a + s + b) == Lower(lower, a) + Lower(lower, s) + Lower(lower, b)
  {
  }

  lemma FieldMatchInLine(lower: char -> char, e: Entry, field: string, text: string)
    requires EscapesStayEscaped(lower) && RawSearchable(text) && text != []
    requires field == e.message || field == e.source || field == e.attrs
    requires Contains(Lower(lower, field), text)
    ensures Contains(Lower(lower, Marshal(e)), text)
  {
    assert field != [] by {
      var i :| 0 <= i <= |Lower(lower, field)| - |text| && OccursAt(Lower(lower, field), text, i);
    }
    hide Marshal, Contains, EscapeText, RawSearchable;
    var a, b := FieldInLine(e, field);
    SearchSurvivesEscaping(lower, field, text);
    LowerSplit(lower, a, EscapeText(field), b);
    ContainsWithin(Lower(lower, a), Lower(lower, EscapeText(field)), Lower(lower, b), text);
  }

  /** The raw checks never discard a line the decoded filter would keep. */
  lemma RawChecksKeep(lower: char -> char, q: Query, e: Entry)
    requires ValidQuery(q) && EscapesStayEscaped(lower) && Matches(lower, q, e)
    ensures RawChecks(lower, q, Marshal(e))
  {
    hide Marshal, Contains, RawSearchable, Plain, Lower;
    if q.levels.Some? {
      LevelIsPlain(e.level);
      TagInLine(e);
    }
    if q.text != [] && RawSearchable(q.text) {
      if Contains(Lower(lower, e.message), q.text) {
        FieldMatchInLine(lower, e, e.message, q.text);
      } else if Contains(Lower(lower, e.source), q.text) {
        FieldMatchInLine(lower, e, e.source, q.text);
      } else {
        FieldMatchInLine(lower, e, e.attrs, q.text);
      }
    }
  }

  // ----- The timestamp at the front of a line

  /** The text before the first double quote. */
  function CutQuote(s: string): Option<string> {
    if s == [] then None
    else if s[0] == '"' then Some([])
    else
      match CutQuote(s[1..])
      case Some(head) => Some([s[0]] + head)
      case None => None
  }

  const TS_PREFIX: string := "{\"ts\":\""

  function LineTime(parseTime: string -> Option<nat>, line: string): Option<nat> {
    if |line| < |TS_PREFIX| || line[..|TS_PREFIX|] != TS_PREFIX then None
    else
      match CutQuote(line[|TS_PREFIX|..])
      case Some(ts) => parseTime(ts)
      case None => None
  }

  /** A text that parses as an RFC 3339 time needs no JSON escape. */
  ghost predicate TimesArePlain(parseTime: string -> Option<nat>) {
    forall s :: parseTime(s).Some? ==> Plain(s)
  }

  lemma {:induction false} CutFindsQuote(a: string, rest: string)
    ensures CutQuote(a + "\"" + rest).Some?
  {
    var s := a + "\"" + rest;
    if a != [] && s[0] != '"' {
      assert s[1..] == a[1..] + "\"" + rest;
      CutFindsQuote(a[1..], rest);
    }
  }

  /** Cutting at the closing quote gives the text back when it is plain, and something that is not plain otherwise. */
  lemma {:induction false} CutEscaped(ts: string, rest: string)
    ensures var cut := CutQuote(EscapeText(ts) + "\"" + rest);
            cut.Some? && (if Plain(ts) then cut.value == ts else !Plain(cut.value))
  {
    var s := EscapeText(ts) + "\"" + rest;
    if ts == [] {
      assert s[0] == '"';
    } else if Escaped(ts[0]) {
      assert s[0] == '\\';
      CutFindsQuote(EscapeText(ts), rest);
      assert CutQuote(s).value[0] == '\\';
    } else {
      CutEscaped(ts[1..], rest);
      assert s[0] == ts[0];
      assert s[1..] == EscapeText(ts[1..]) + "\"" + rest;
      var tail := CutQuote(s[1..]).value;
      assert CutQuote(s) == Some([ts[0]] + tail);
      assert ts == [ts[0]] + ts[1..];
      if !Plain(ts) {
        var i :| 0 <= i < |tail| && Escaped(tail[i]);
        assert ([ts[0]] + tail)[i + 1] == tail[i];
      }
    }
  }

  /** The time read off a saved line is its entry's own timestamp, parsed. */
  lemma LineTimeOfEntry(parseTime: string -> Option<nat>, e: Entry)
    requires TimesArePlain(parseTime)
    ensures LineTime(parseTime, Marshal(e)) == parseTime(e.ts)
  {
    hide EscapeText, CutQuote, Plain, Joined;
    var ps := Pieces(e);
    var rest := Joined(ps[3..]);
    JoinedStretch(ps, 0, 3);
    JoinedThree(ps[0..3]);
    JoinedNone();
    assert ps[..0] == [] && ps[2] == "\"" + ",";
    var cut := EscapeText(e.ts) + "\"" + ("," + rest);
    assert Marshal(e) == TS_PREFIX + cut;
    assert (TS_PREFIX + cut)[|TS_PREFIX|..] == cut;
    CutEscaped(e.ts, "," + rest);
  }

  lemma JoinedNone()
    ensures Joined([]) == []
  {
  }

  lemma {:induction false} CutQuoteLonger(s: string, t: string)
    requires CutQuote(s).Some?
    ensures CutQuote(s + t) == CutQuote(s)
  {
    if s != [] && s[0] != '"' {
      assert (s + t)[1..] == s[1..] + t;
      CutQuoteLonger(s[1..], t);
    }
  }

  /** A cut line shows the whole line's time or none. */
  lemma CutLineTime(parseTime: string -> Option<nat>, cut: string, line: string)
    requires cut <= line
    ensures LineTime(parseTime, cut).Some? ==> LineTime(parseTime, line) == LineTime(parseTime, cut)
  {
    hide CutQuote;
    var n := |TS_PREFIX|;
    if n <= |cut| && cut[..n] == TS_PREFIX && CutQuote(cut[n..]).Some? {
      assert line[n..] == cut[n..] + line[|cut|..];
      CutQuoteLonger(cut[n..], line[|cut|..]);
    }
  }
}
