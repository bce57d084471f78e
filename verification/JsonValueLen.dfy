// Finding where an embedded JSON value ends by counting brackets and watching
// quotes, and the grammar of section 2 to 7 of RFC 8259 it has to agree with.
module JsonValueLen {

  predicate Opens(c: char) { c == '[' || c == '{' }

  predicate Closes(c: char) { c == ']' || c == '}' }

  /** What ends a bare scalar, besides a closing bracket. */
  predicate Separates(c: char) { c == ',' || c == ' ' || '\t' <= c <= '\r' }

  /** How many characters of `s` the counter scan takes, from a given state. */
  function Len(s: string, depth: nat, quoted: bool): (n: nat)
    ensures n <= |s|
  {
    if s == [] then 0
    else
      var c := s[0];
      if quoted && c == '\\' then (if |s| < 2 then 1 else 2 + Len(s[2..], depth, true))
      else if quoted then
        if c != '"' then 1 + Len(s[1..], depth, true)
        else if depth == 0 then 1
        else 1 + Len(s[1..], depth, false)
      else if c == '"' then 1 + Len(s[1..], depth, true)
      else if Opens(c) then 1 + Len(s[1..], depth + 1, false)
      else if Closes(c) then
        if depth == 0 then 0
        else if depth == 1 then 1
        else 1 + Len(s[1..], depth - 1, false)
      else if depth == 0 && Separates(c) then 0
      else 1 + Len(s[1..], depth, false)
  }

  /** The scan as the scrubber runs it: one index, a depth counter and a quote flag. */
  method ValueLen(s: string) returns (n: nat)
    ensures n == Len(s, 0, false)
  {
    hide Opens, Closes, Separates;
    var depth, quoted, i := 0, false, 0;
    assert s[0..] == s;
    while i < |s|
      invariant 0 <= i <= |s| + 1 && depth >= 0
      invariant if i <= |s| then Len(s, 0, false) == i + Len(s[i..], depth, quoted) else Len(s, 0, false) == |s|
      decreases |s| - i
    {
      var c := s[i];
      var rest := s[i..];
      assert rest[0] == c && rest[1..] == s[i + 1..];
      assert i + 1 < |s| ==> rest[2..] == s[i + 2..];
      if quoted && c == '\\' {
        i := i + 1;
      } else if quoted {
        quoted := c != '"';
        if !quoted && depth == 0 { return i + 1; }
      } else if c == '"' {
        quoted := true;
      } else if Opens(c) {
        depth := depth + 1;
      } else if Closes(c) {
        if depth == 0 { return i; }
        depth := depth - 1;
        if depth == 0 { return i + 1; }
      } else if depth == 0 && Separates(c) {
        return i;
      }
      i := i + 1;
    }
    assert i == |s| ==> s[i..] == [];
    return |s|;
  }

  // ----- The grammar

  /** A digit sequence, never empty. */
  predicate Digits(s: string) { s != [] && forall i :: 0 <= i < |s| ==> '0' <= s[i] <= '9' }

  predicate Blank(s: string) { forall i :: 0 <= i < |s| ==> s[i] in " \t\n\r" }

  /** One character of a string: itself, a short escape, or \uXXXX. */
  datatype Piece = Raw(c: char) | Short(c: char) | Unicode(h0: char, h1: char, h2: char, h3: char)

  predicate Hex(c: char) { '0' <= c <= '9' || 'a' <= c <= 'f' || 'A' <= c <= 'F' }

  predicate ValidPiece(p: Piece) {
    match p
    case Raw(c) => c >= ' ' && c != '"' && c != '\\'
    case Short(c) => c in "\"\\/bfnrt"
    case Unicode(a, b, c, d) => Hex(a) && Hex(b) && Hex(c) && Hex(d)
  }

  function PieceText(p: Piece): string {
    match p
    case Raw(c) => [c]
    case Short(c) => ['\\', c]
    case Unicode(a, b, c, d) => ['\\', 'u', a, b, c, d]
  }

  function PiecesText(ps: seq<Piece>): string {
    if ps == [] then [] else PieceText(ps[0]) + PiecesText(ps[1..])
  }

  function StringText(ps: seq<Piece>): string { "\"" + PiecesText(ps) + "\"" }

  datatype Exponent = NoExponent | Exponent(e: char, sign: string, digits: string)

  datatype Value =
    | Null | True | False
    | Number(minus: bool, whole: string, fraction: string, exponent: Exponent)
    | Text(pieces: seq<Piece>)
    | EmptyArray(ws: string) | Array(items: Items)
    | EmptyObject(ws: string) | Object(members: Members)

  datatype Items =
    | Item(before: string, value: Value, after: string)
    | Items(before: string, value: Value, after: string, rest: Items)

  datatype Members =
    | Member(before: string, key: seq<Piece>, mid: string, colon: string, value: Value, after: string)
    | Members(before: string, key: seq<Piece>, mid: string, colon: string, value: Value, after: string, rest: Members)

  predicate ValidString(ps: seq<Piece>) { forall i :: 0 <= i < |ps| ==> ValidPiece(ps[i]) }

  predicate ValidNumber(v: Value)
    requires v.Number?
  {
    && Digits(v.whole) && (v.whole == "0" || v.whole[0] != '0')
    && (v.fraction == [] || Digits(v.fraction))
    && (v.exponent.Exponent? ==>
          v.exponent.e in "eE" && v.exponent.sign in {"", "+", "-"} && Digits(v.exponent.digits))
  }

  predicate ValidValue(v: Value) {
    match v
    case Null => true
    case True => true
    case False => true
    case Number(_, _, _, _) => ValidNumber(v)
    case Text(ps) => ValidString(ps)
    case EmptyArray(ws) => Blank(ws)
    case Array(items) => ValidItems(items)
    case EmptyObject(ws) => Blank(ws)
    case Object(members) => ValidMembers(members)
  }

  predicate ValidItems(x: Items) {
    Blank(x.before) && ValidValue(x.value) && Blank(x.after) && (x.Items? ==> ValidItems(x.rest))
  }

  predicate ValidMembers(x: Members) {
    && Blank(x.before) && ValidString(x.key) && Blank(x.mid) && Blank(x.colon)
    && ValidValue(x.value) && Blank(x.after) && (x.Members? ==> ValidMembers(x.rest))
  }

  function NumberText(v: Value): string
    requires v.Number?
  {
    (if v.minus then "-" else "") + v.whole + (if v.fraction == [] then "" else "." + v.fraction) +
    match v.exponent
    case NoExponent => ""
    case Exponent(e, sign, digits) => [e] + sign + digits
  }

  function Print(v: Value): string {
    match v
    case Null => "null"
    case True => "true"
    case False => "false"
    case Number(_, _, _, _) => NumberText(v)
    case Text(ps) => StringText(ps)
    case EmptyArray(ws) => "[" + ws + "]"
    case Array(items) => "[" + PrintItems(items) + "]"
    case EmptyObject(ws) => "{" + ws + "}"
    case Object(members) => "{" + PrintMembers(members) + "}"
  }

  function PrintItems(x: Items): string {
    var more := if x.Items? then "," + PrintItems(x.rest) else "";
    x.before + (Print(x.value) + (x.after + more))
  }

  function PrintMembers(x: Members): string {
    var more := if x.Members? then "," + PrintMembers(x.rest) else "";
    x.before + (StringText(x.key) + (x.mid + (":" + (x.colon + (Print(x.value) + (x.after + more))))))
  }

  // ----- Text the scan passes over

  /** From this state the scan runs through `t` and comes out in the same state. */
  ghost predicate Passes(t: string, rest: string, depth: nat, quoted: bool) {
    Len(t + rest, depth, quoted) == |t| + Len(rest, depth, quoted)
  }

  lemma PassesConcat(a: string, b: string, rest: string, depth: nat, quoted: bool)
    requires Passes(a, b + rest, depth, quoted) && Passes(b, rest, depth, quoted)
    ensures Passes(a + b, rest, depth, quoted)
  {
    hide Len;
    assert (a + b) + rest == a + (b + rest);
  }

  /** A character with no meaning to the scan inside brackets. */
  predicate Inert(c: char) { c != '"' && !Opens(c) && !Closes(c) }

  predicate AllInert(t: string) { forall i :: 0 <= i < |t| ==> Inert(t[i]) }

  lemma {:induction false} InertPasses(t: string, rest: string, depth: nat)
    requires AllInert(t) && (depth == 0 ==> forall i :: 0 <= i < |t| ==> !Separates(t[i]))
    ensures Passes(t, rest, depth, false)
  {
    hide Opens, Closes, Separates;
    if t == [] {
      assert t + rest == rest;
    } else {
      assert (t + rest)[1..] == t[1..] + rest;
      InertPasses(t[1..], rest, depth);
    }
  }

  lemma BlankInert(ws: string)
    requires Blank(ws)
    ensures AllInert(ws)
  {
  }

  /** Inside quotes a piece never ends the string, escaped quotes included. */
  lemma PiecePasses(p: Piece, rest: string, depth: nat)
    requires ValidPiece(p)
    ensures Passes(PieceText(p), rest, depth, true)
  {
    match p {
      case Raw(c) =>
        assert ([c] + rest)[1..] == rest;
      case Short(c) =>
        assert (['\\', c] + rest)[2..] == rest;
      case Unicode(a, b, c, d) =>
        assert ['\\', 'u', a, b, c, d] == ['\\', 'u'] + [a, b, c, d];
        assert (['\\', 'u'] + ([a, b, c, d] + rest))[2..] == [a, b, c, d] + rest;
        assert Passes(['\\', 'u'], [a, b, c, d] + rest, depth, true);
        HexPasses([a, b, c, d], rest, depth);
        PassesConcat(['\\', 'u'], [a, b, c, d], rest, depth, true);
    }
  }

  lemma {:induction false} HexPasses(t: string, rest: string, depth: nat)
    requires forall i :: 0 <= i < |t| ==> Hex(t[i])
    ensures Passes(t, rest, depth, true)
  {
    if t == [] {
      assert t + rest == rest;
    } else {
      assert (t + rest)[1..] == t[1..] + rest;
      HexPasses(t[1..], rest, depth);
    }
  }

  lemma {:induction false} PiecesPass(ps: seq<Piece>, rest: string, depth: nat)
    requires ValidString(ps)
    ensures Passes(PiecesText(ps), rest, depth, true)
  {
    hide Len, ValidPiece, PieceText, Passes;
    if ps == [] {
      NothingPasses(rest, depth, true);
    } else {
      PiecePasses(ps[0], PiecesText(ps[1..]) + rest, depth);
      PiecesPass(ps[1..], rest, depth);
      PassesConcat(PieceText(ps[0]), PiecesText(ps[1..]), rest, depth, true);
    }
  }

  lemma NothingPasses(rest: string, depth: nat, quoted: bool)
    ensures Passes([], rest, depth, quoted)
  {
    assert [] + rest == rest;
  }

  /** A string is passed over inside brackets; outside them it ends the scan. */
  lemma StringScan(ps: seq<Piece>, rest: string, depth: nat)
    requires ValidString(ps)
    ensures depth > 0 ==> Passes(StringText(ps), rest, depth, false)
    ensures depth == 0 ==> Len(StringText(ps) + rest, 0, false) == |StringText(ps)|
  {
    hide PiecesText, ValidPiece;
    var t := PiecesText(ps);
    PiecesPass(ps, "\"" + rest, depth);
    assert StringText(ps) + rest == "\"" + (t + ("\"" + rest));
    assert ("\"" + (t + ("\"" + rest)))[1..] == t + ("\"" + rest);
    assert ("\"" + rest)[1..] == rest;
  }

  /** Brackets around text that passes inside them. */
  lemma BracketScan(open: char, inner: string, close: char, rest: string, depth: nat)
    requires Opens(open) && Closes(close) && Passes(inner, [close] + rest, depth + 1, false)
    ensures depth > 0 ==> Passes([open] + inner + [close], rest, depth, false)
    ensures depth == 0 ==> Len([open] + inner + [close] + rest, 0, false) == |inner| + 2
  {
    hide Len, Opens, Closes;
    var tail := [close] + rest;
    OpenStep(open, inner + tail, depth);
    CloseStep(close, rest, depth);
    assert ([open] + inner + [close]) + rest == [open] + (inner + tail);
  }

  lemma OpenStep(open: char, rest: string, depth: nat)
    requires Opens(open)
    ensures Len([open] + rest, depth, false) == 1 + Len(rest, depth + 1, false)
  {
    assert ([open] + rest)[1..] == rest;
  }

  lemma CloseStep(close: char, rest: string, depth: nat)
    requires Closes(close)
    ensures Len([close] + rest, depth + 1, false) == if depth == 0 then 1 else 1 + Len(rest, depth, false)
  {
    assert ([close] + rest)[1..] == rest;
  }

  lemma NumberInert(v: Value)
    requires v.Number? && ValidNumber(v)
    ensures AllInert(NumberText(v)) && forall i :: 0 <= i < |NumberText(v)| ==> !Separates(NumberText(v)[i])
  {
    var sign := if v.minus then "-" else "";
    var frac := if v.fraction == [] then "" else "." + v.fraction;
    var expo := match v.exponent case NoExponent => "" case Exponent(e, sign, digits) => [e] + sign + digits;
    DigitsScalar(v.whole);
    if v.fraction != [] { DigitsScalar(v.fraction); }
    if v.exponent.Exponent? {
      DigitsScalar(v.exponent.digits);
      assert Scalar([v.exponent.e]) && Scalar(v.exponent.sign);
      ScalarConcat([v.exponent.e], v.exponent.sign);
      ScalarConcat([v.exponent.e] + v.exponent.sign, v.exponent.digits);
    }
    assert Scalar(sign) && Scalar(".");
    hide Digits, ValidNumber, Scalar;
    if v.fraction != [] { ScalarConcat(".", v.fraction); }
    NoScalar();
    ScalarConcat(sign, v.whole);
    ScalarConcat(sign + v.whole, frac);
    ScalarConcat(sign + v.whole + frac, expo);
    ScalarInert(NumberText(v));
  }

  lemma NoScalar()
    ensures Scalar("")
  {
  }

  lemma DigitsScalar(t: string)
    requires Digits(t)
    ensures Scalar(t)
  {
  }

  lemma ScalarConcat(a: string, b: string)
    requires Scalar(a) && Scalar(b)
    ensures Scalar(a + b)
  {
    hide Inert, Separates;
  }

  lemma ScalarInert(t: string)
    requires Scalar(t)
    ensures AllInert(t) && forall i :: 0 <= i < |t| ==> !Separates(t[i])
  {
    hide Inert, Separates;
  }

  predicate Scalar(t: string) { forall i :: 0 <= i < |t| ==> Inert(t[i]) && !Separates(t[i]) }

  /** Every value is passed over inside brackets, at any depth. */
  lemma {:induction false} ValuePasses(v: Value, rest: string, depth: nat)
    requires ValidValue(v) && depth > 0
    ensures Passes(Print(v), rest, depth, false)
    decreases v, 1
  {
    hide Len, Passes, AllInert, StringText;
    match v {
      case Null => WordInert("null"); InertPasses("null", rest, depth);
      case True => WordInert("true"); InertPasses("true", rest, depth);
      case False => WordInert("false"); InertPasses("false", rest, depth);
      case Number(_, _, _, _) =>
        NumberInert(v);
        InertPasses(NumberText(v), rest, depth);
      case Text(ps) =>
        StringScan(ps, rest, depth);
      case _ =>
        var inner := Inner(v);
        InnerPasses(v, [Close(v)] + rest, depth + 1);
        BracketScan(Open(v), inner, Close(v), rest, depth);
    }
  }

  lemma WordInert(w: string)
    requires w in {"null", "true", "false"}
    ensures AllInert(w) && forall i :: 0 <= i < |w| ==> !Separates(w[i])
  {
  }

  predicate Bracketed(v: Value) { v.EmptyArray? || v.Array? || v.EmptyObject? || v.Object? }

  function Inner(v: Value): string
    requires Bracketed(v)
  {
    match v
    case EmptyArray(ws) => ws
    case Array(items) => PrintItems(items)
    case EmptyObject(ws) => ws
    case Object(members) => PrintMembers(members)
  }

  function Open(v: Value): (c: char)
    requires Bracketed(v)
    ensures Opens(c) && Print(v) == [c] + Inner(v) + [Close(v)]
  {
    if v.EmptyArray? || v.Array? then '[' else '{'
  }

  function Close(v: Value): (c: char)
    requires Bracketed(v)
    ensures Closes(c)
  {
    if v.EmptyArray? || v.Array? then ']' else '}'
  }

  lemma {:induction false} InnerPasses(v: Value, rest: string, depth: nat)
    requires ValidValue(v) && Bracketed(v) && depth > 0
    ensures Passes(Inner(v), rest, depth, false)
    decreases v, 0
  {
    hide Len, Passes;
    match v {
      case EmptyArray(ws) => BlankPasses(ws, rest, depth);
      case EmptyObject(ws) => BlankPasses(ws, rest, depth);
      case Array(items) => ItemsPass(items, rest, depth);
      case Object(members) => MembersPass(members, rest, depth);
    }
  }

  lemma BlankPasses(ws: string, rest: string, depth: nat)
    requires Blank(ws) && depth > 0
    ensures Passes(ws, rest, depth, false)
  {
    BlankInert(ws);
    InertPasses(ws, rest, depth);
  }

  lemma MarkPasses(mark: string, rest: string, depth: nat)
    requires mark in {",", ":"} && depth > 0
    ensures Passes(mark, rest, depth, false)
  {
    InertPasses(mark, rest, depth);
  }

  lemma {:induction false} ItemsPass(x: Items, rest: string, depth: nat)
    requires ValidItems(x) && depth > 0
    ensures Passes(PrintItems(x), rest, depth, false)
    decreases x
  {
    hide Len, Passes, Blank, Print;
    var more := if x.Items? then "," + PrintItems(x.rest) else "";
    if x.Items? {
      ItemsPass(x.rest, rest, depth);
      MarkPasses(",", PrintItems(x.rest) + rest, depth);
      PassesConcat(",", PrintItems(x.rest), rest, depth, false);
    } else {
      NothingPasses(rest, depth, false);
    }
    BlankPasses(x.after, more + rest, depth);
    PassesConcat(x.after, more, rest, depth, false);
    ValuePasses(x.value, x.after + more + rest, depth);
    assert x.after + more + rest == (x.after + more) + rest;
    PassesConcat(Print(x.value), x.after + more, rest, depth, false);
    var body := Print(x.value) + (x.after + more);
    BlankPasses(x.before, body + rest, depth);
    PassesConcat(x.before, body, rest, depth, false);
  }

  /** After a key: the colon, the value and what follows it. */
  lemma AfterKeyPasses(x: Members, more: string, rest: string, depth: nat)
    requires Blank(x.mid) && Blank(x.colon) && Blank(x.after) && depth > 0
    requires Passes(more, rest, depth, false)
    requires Passes(Print(x.value), x.after + more + rest, depth, false)
    ensures Passes(x.mid + (":" + (x.colon + (Print(x.value) + (x.after + more)))), rest, depth, false)
  {
    hide Len, Passes, Blank, Print;
    BlankPasses(x.after, more + rest, depth);
    PassesConcat(x.after, more, rest, depth, false);
    var t1 := x.after + more;
    PassesConcat(Print(x.value), t1, rest, depth, false);
    var t2 := Print(x.value) + t1;
    BlankPasses(x.colon, t2 + rest, depth);
    PassesConcat(x.colon, t2, rest, depth, false);
    var t3 := x.colon + t2;
    MarkPasses(":", t3 + rest, depth);
    PassesConcat(":", t3, rest, depth, false);
    var t4 := ":" + t3;
    BlankPasses(x.mid, t4 + rest, depth);
    PassesConcat(x.mid, t4, rest, depth, false);
  }

  lemma {:induction false} MembersPass(x: Members, rest: string, depth: nat)
    requires ValidMembers(x) && depth > 0
    ensures Passes(PrintMembers(x), rest, depth, false)
    decreases x
  {
    hide Len, Passes, Blank, Print, StringText, ValidString;
    var more := if x.Members? then "," + PrintMembers(x.rest) else "";
    if x.Members? {
      MembersPass(x.rest, rest, depth);
      MarkPasses(",", PrintMembers(x.rest) + rest, depth);
      PassesConcat(",", PrintMembers(x.rest), rest, depth, false);
    } else {
      NothingPasses(rest, depth, false);
    }
    ValuePasses(x.value, x.after + more + rest, depth);
    AfterKeyPasses(x, more, rest, depth);
    var tail := x.mid + (":" + (x.colon + (Print(x.value) + (x.after + more))));
    StringScan(x.key, tail + rest, depth);
    PassesConcat(StringText(x.key), tail, rest, depth, false);
    var body := StringText(x.key) + tail;
    BlankPasses(x.before, body + rest, depth);
    PassesConcat(x.before, body, rest, depth, false);
  }

  // ----- The scan agrees with the grammar

  /** What may follow a scalar where it is a whole value: the end, a separator or a closing bracket. */
  predicate Terminates(rest: string) {
    rest == [] || Separates(rest[0]) || Closes(rest[0])
  }

  /** The scan takes exactly the value: a scalar up to what ends it, anything else whatever follows. */
  lemma ScanTakesTheValue(v: Value, rest: string)
    requires ValidValue(v)
    requires v.Text? || Bracketed(v) || Terminates(rest)
    ensures Len(Print(v) + rest, 0, false) == |Print(v)|
  {
    hide Passes;
    if v.Text? {
      StringScan(v.pieces, rest, 0);
    } else if Bracketed(v) {
      hide Len;
      InnerPasses(v, [Close(v)] + rest, 1);
      BracketScan(Open(v), Inner(v), Close(v), rest, 0);
    } else {
      var t := Print(v);
      if v.Number? { NumberInert(v); } else { WordInert(t); }
      InertPasses(t, rest, 0);
      ScalarEnds(t, rest);
    }
  }

  lemma ScalarEnds(t: string, rest: string)
    requires Passes(t, rest, 0, false) && Terminates(rest)
    ensures Len(t + rest, 0, false) == |t|
  {
    assert Len(rest, 0, false) == 0;
  }

  /** A scan cut short by the end of the text takes all of it. */
  lemma {:induction false} CutTakesAll(s: string, k: nat, depth: nat, quoted: bool)
    requires k <= Len(s, depth, quoted)
    ensures Len(s[..k], depth, quoted) == k
  {
    hide Opens, Closes, Separates;
    if k > 0 {
      var c := s[0];
      assert s[..k][1..] == s[1..][..k - 1];
      if quoted && c == '\\' {
        if k > 1 {
          assert s[..k][2..] == s[2..][..k - 2];
          CutTakesAll(s[2..], k - 2, depth, true);
        }
      } else if quoted {
        if c != '"' { CutTakesAll(s[1..], k - 1, depth, true); }
        else if depth > 0 { CutTakesAll(s[1..], k - 1, depth, false); }
      } else if c == '"' {
        CutTakesAll(s[1..], k - 1, depth, true);
      } else if Opens(c) {
        CutTakesAll(s[1..], k - 1, depth + 1, false);
      } else if Closes(c) {
        if depth > 1 { CutTakesAll(s[1..], k - 1, depth - 1, false); }
      } else {
        CutTakesAll(s[1..], k - 1, depth, false);
      }
    }
  }

  /** A string, array or object that is not closed takes the rest of the text. */
  lemma UnclosedTakesTheRest(v: Value, k: nat)
    requires ValidValue(v) && (v.Text? || Bracketed(v)) && k <= |Print(v)|
    ensures Len(Print(v)[..k], 0, false) == k
  {
    hide Len, Print;
    ScanTakesTheValue(v, []);
    assert Print(v) + [] == Print(v);
    CutTakesAll(Print(v), k, 0, false);
  }
}
