/**
 * JSON text for a flat object whose property values are all strings, which is
 * what a parsed query string is: JSON.stringify as ECMAScript defines it
 * (SerializeJSONObject and QuoteJSONString), and the part of JSON.parse that
 * reads such text back.
 */
module Json {
  import opened Wrappers
  import opened JsObject

  predicate IsControl(c: char) {
    c < ' '
  }

  function HexValue(c: char): (r: Option<nat>)
    ensures r.Some? ==> r.value < 16
  {
    if '0' <= c <= '9' then Some(c as int - '0' as int)
    else if 'a' <= c <= 'f' then Some(c as int - 'a' as int + 10)
    else if 'A' <= c <= 'F' then Some(c as int - 'A' as int + 10)
    else None
  }

  /** A lowercase hexadecimal digit. */
  function HexDigit(d: nat): (c: char)
    requires d < 16
    ensures HexValue(c) == Some(d)
    ensures ('0' <= c <= '9') || ('a' <= c <= 'f')
  {
    if d < 10 then ('0' as int + d) as char else ('a' as int + d - 10) as char
  }

  // ---------------------------------------------------------------------------
  // JSON.stringify

  /** One character of a string as QuoteJSONString writes it. */
  function EscapeChar(c: char): (r: string)
    ensures |r| >= 1
    ensures r[0] == '\\' <==> (c == '"' || c == '\\' || IsControl(c))
    ensures r[0] != '\\' ==> r == [c]
  {
    if c == '"' then "\\\""
    else if c == '\\' then "\\\\"
    else if c == '\U{8}' then "\\b"
    else if c == '\t' then "\\t"
    else if c == '\n' then "\\n"
    else if c == '\U{C}' then "\\f"
    else if c == '\r' then "\\r"
    else if IsControl(c) then "\\u00" + [HexDigit(c as int / 16), HexDigit(c as int % 16)]
    else [c]
  }

  function Escape(s: string): string {
    if s == [] then [] else EscapeChar(s[0]) + Escape(s[1..])
  }

  /** A string literal: the escaped text between double quotes. */
  function Quote(s: string): string {
    "\"" + Escape(s) + "\""
  }

  function MemberText(k: string, v: string): string {
    Quote(k) + ":" + Quote(v)
  }

  /** The members, separated by commas. */
  function MembersText(o: seq<(string, string)>): string {
    if o == [] then []
    else if |o| == 1 then MemberText(o[0].0, o[0].1)
    else MemberText(o[0].0, o[0].1) + "," + MembersText(o[1..])
  }

  /** `JSON.stringify(o)` for a flat object of strings: no white space is written. */
  function Stringify(o: seq<(string, string)>): string {
    "{" + MembersText(o) + "}"
  }

  lemma {:induction false} EscapeAppend(a: string, b: string)
    ensures Escape(a + b) == Escape(a) + Escape(b)
  {
    if a != [] {
      assert (a + b)[0] == a[0];
      assert (a + b)[1..] == a[1..] + b;
      EscapeAppend(a[1..], b);
    } else {
      assert a + b == b;
    }
  }

  // ---------------------------------------------------------------------------
  // JSON.parse, for text of that shape

  /**
   * The character an escape sequence stands for and the text after it; `u` is
   * the text after the backslash. A `\u` escape of a lone surrogate has no
   * character of its own and is refused.
   */
  function ParseEscape(u: string): (r: Option<(char, string)>)
    ensures r.Some? ==> |r.value.1| < |u|
  {
    if u == [] then None
    else if u[0] == '"' || u[0] == '\\' || u[0] == '/' then Some((u[0], u[1..]))
    else if u[0] == 'b' then Some(('\U{8}', u[1..]))
    else if u[0] == 'f' then Some(('\U{C}', u[1..]))
    else if u[0] == 'n' then Some(('\n', u[1..]))
    else if u[0] == 'r' then Some(('\r', u[1..]))
    else if u[0] == 't' then Some(('\t', u[1..]))
    else if u[0] == 'u' && |u| >= 5 then
      match (HexValue(u[1]), HexValue(u[2]), HexValue(u[3]), HexValue(u[4]))
      case (Some(a), Some(b), Some(c), Some(d)) =>
        var v := ((a * 16 + b) * 16 + c) * 16 + d;
        if 0xD800 <= v < 0xE000 then None else Some((v as char, u[5..]))
      case _ => None
    else None
  }

  /** One character inside a string literal; a raw control character is an error. */
  function ParseChar(t: string): (r: Option<(char, string)>)
    requires t != []
    ensures r.Some? ==> |r.value.1| < |t|
  {
    if t[0] == '\\' then ParseEscape(t[1..])
    else if IsControl(t[0]) then None
    else Some((t[0], t[1..]))
  }

  /** The rest of a string literal after its opening quote: its value and the text after the closing quote. */
  function ParseStringBody(t: string): (r: Option<(string, string)>)
    ensures r.Some? ==> |r.value.1| < |t|
    decreases |t|
  {
    if t == [] then None
    else if t[0] == '"' then Some(([], t[1..]))
    else
      match ParseChar(t)
      case None => None
      case Some((c, rest)) =>
        match ParseStringBody(rest)
        case None => None
        case Some((s, after)) => Some(([c] + s, after))
  }

  function ParseString(t: string): (r: Option<(string, string)>)
    ensures r.Some? ==> |r.value.1| < |t|
  {
    if t != [] && t[0] == '"' then ParseStringBody(t[1..]) else None
  }

  /**
   * Members up to the closing brace, added to `acc` as JSON.parse adds them:
   * a repeated name keeps its first position and takes the later value.
   */
  function ParseMembers(t: string, acc: seq<(string, string)>): Option<seq<(string, string)>>
    decreases |t|
  {
    match ParseString(t)
    case None => None
    case Some((k, r1)) =>
      if r1 == [] || r1[0] != ':' then None
      else
        match ParseString(r1[1..])
        case None => None
        case Some((v, r2)) =>
          if r2 == "}" then Some(Put(acc, k, v))
          else if r2 != [] && r2[0] == ',' then ParseMembers(r2[1..], Put(acc, k, v))
          else None
  }

  /** `JSON.parse(t)` for an object of strings without white space; `None` for any other text. */
  function ParseObject(t: string): Option<seq<(string, string)>> {
    if t == "{}" then Some([])
    else if t != [] && t[0] == '{' then ParseMembers(t[1..], [])
    else None
  }

  /** The object JSON.parse builds from the members in order. */
  function PutAll(acc: seq<(string, string)>, o: seq<(string, string)>): seq<(string, string)>
    decreases |o|
  {
    if o == [] then acc else PutAll(Put(acc, o[0].0, o[0].1), o[1..])
  }

  // ---------------------------------------------------------------------------
  // Round trip

  lemma ParseEscapedChar(c: char, x: string)
    ensures (EscapeChar(c) + x)[0] != '"'
    ensures ParseChar(EscapeChar(c) + x) == Some((c, x))
  {
    var t := EscapeChar(c) + x;
    if IsControl(c) && c != '\U{8}' && c != '\t' && c != '\n' && c != '\U{C}' && c != '\r' {
      var u := t[1..];
      assert u == "u00" + [HexDigit(c as int / 16), HexDigit(c as int % 16)] + x;
      assert u[1] == '0' && u[2] == '0';
      assert u[5..] == x;
    } else if EscapeChar(c)[0] == '\\' {
      assert t[1..] == EscapeChar(c)[1..] + x;
    }
  }

  lemma {:induction false} ParseStringOfQuote(s: string, rest: string)
    ensures ParseStringBody(Escape(s) + "\"" + rest) == Some((s, rest))
  {
    if s == [] {
      assert Escape(s) + "\"" + rest == "\"" + rest;
    } else {
      var tail := Escape(s[1..]) + "\"" + rest;
      EscapeShape(s, rest);
      ParseEscapedChar(s[0], tail);
      ParseStringOfQuote(s[1..], rest);
      ParseBodyStep(EscapeChar(s[0]) + tail, s[0], tail, s[1..], rest);
      assert [s[0]] + s[1..] == s;
    }
  }

  lemma EscapeShape(s: string, rest: string)
    requires s != []
    ensures Escape(s) + "\"" + rest == EscapeChar(s[0]) + (Escape(s[1..]) + "\"" + rest)
  {
    assert Escape(s) == EscapeChar(s[0]) + Escape(s[1..]);
    Concat4(EscapeChar(s[0]), Escape(s[1..]), "\"", rest);
  }

  /** One character read by `ParseStringBody`, from what `ParseChar` finds. */
  lemma ParseBodyStep(t: string, c: char, tail: string, s: string, rest: string)
    requires t != [] && t[0] != '"' && ParseChar(t) == Some((c, tail))
    requires ParseStringBody(tail) == Some((s, rest))
    ensures ParseStringBody(t) == Some(([c] + s, rest))
  {
  }

  lemma ParseQuoted(s: string, rest: string)
    ensures ParseString(Quote(s) + rest) == Some((s, rest))
  {
    assert Quote(s) + rest == "\"" + (Escape(s) + "\"" + rest);
    ParseStringOfQuote(s, rest);
  }

  lemma ParseMember(k: string, v: string, rest: string, acc: seq<(string, string)>)
    requires rest == "}" || (rest != [] && rest[0] == ',')
    ensures ParseMembers(MemberText(k, v) + rest, acc)
      == if rest == "}" then Some(Put(acc, k, v)) else ParseMembers(rest[1..], Put(acc, k, v))
  {
    var r1 := ":" + (Quote(v) + rest);
    MemberShape(k, v, rest);
    ParseQuoted(k, r1);
    ParseQuoted(v, rest);
    ParseMembersStep(MemberText(k, v) + rest, k, r1, v, rest, acc);
  }

  lemma MemberShape(k: string, v: string, rest: string)
    ensures MemberText(k, v) + rest == Quote(k) + (":" + (Quote(v) + rest))
    ensures (":" + (Quote(v) + rest))[1..] == Quote(v) + rest
  {
    Concat4(Quote(k), ":", Quote(v), rest);
    DropHead(":", Quote(v) + rest);
  }

  /** One member read by `ParseMembers`, from what `ParseString` finds. */
  lemma ParseMembersStep(t: string, k: string, r1: string, v: string, r2: string, acc: seq<(string, string)>)
    requires ParseString(t) == Some((k, r1))
    requires r1 != [] && r1[0] == ':' && ParseString(r1[1..]) == Some((v, r2))
    requires r2 == "}" || (r2 != [] && r2[0] == ',')
    ensures ParseMembers(t, acc) == if r2 == "}" then Some(Put(acc, k, v)) else ParseMembers(r2[1..], Put(acc, k, v))
  {
  }

  lemma {:induction false} ParseMembersText(o: seq<(string, string)>, acc: seq<(string, string)>)
    requires o != []
    ensures ParseMembers(MembersText(o) + "}", acc) == Some(PutAll(acc, o))
    decreases |o|
  {
    if |o| == 1 {
      ParseMember(o[0].0, o[0].1, "}", acc);
      assert o[1..] == [];
    } else {
      var rest := "," + (MembersText(o[1..]) + "}");
      MembersShape(o);
      ParseMember(o[0].0, o[0].1, rest, acc);
      ParseMembersText(o[1..], Put(acc, o[0].0, o[0].1));
    }
  }

  lemma MembersShape(o: seq<(string, string)>)
    requires |o| >= 2
    ensures MembersText(o) + "}" == MemberText(o[0].0, o[0].1) + ("," + (MembersText(o[1..]) + "}"))
    ensures ("," + (MembersText(o[1..]) + "}"))[1..] == MembersText(o[1..]) + "}"
  {
    var m := MemberText(o[0].0, o[0].1);
    var tail := MembersText(o[1..]);
    assert MembersText(o) == m + "," + tail;
    Concat4(m, ",", tail, "}");
    DropHead(",", tail + "}");
  }

  lemma Concat4(a: string, b: string, c: string, d: string)
    ensures a + b + c + d == a + (b + (c + d))
  {
  }

  lemma DropHead(c: string, x: string)
    requires |c| == 1
    ensures (c + x)[1..] == x
  {
  }

  /** JSON.parse reads back what JSON.stringify wrote. */
  lemma ParseStringify(o: seq<(string, string)>)
    requires DistinctKeys(o)
    ensures ParseObject(Stringify(o)) == Some(o)
  {
    if o != [] {
      var t := Stringify(o);
      StringifyShape(o);
      assert ParseObject(t) == ParseMembers(t[1..], []);
      ParseMembersText(o, []);
      assert [] + o == o;
      PutAllFresh([], o);
    }
  }

  lemma StringifyShape(o: seq<(string, string)>)
    requires o != []
    ensures var t := Stringify(o); t != "{}" && t[0] == '{' && t[1..] == MembersText(o) + "}"
  {
    MembersTextNonEmpty(o);
    Braced(MembersText(o));
  }

  lemma Braced(m: string)
    requires m != []
    ensures var t := "{" + m + "}"; t != "{}" && t[0] == '{' && t[1..] == m + "}"
  {
    var t := "{" + m + "}";
    assert |t| == |m| + 2;
    assert t[1..] == m + "}";
  }

  lemma MembersTextNonEmpty(o: seq<(string, string)>)
    requires o != []
    ensures |MembersText(o)| > 0
  {
    var first := MemberText(o[0].0, o[0].1);
    assert |first| >= 5;
    if |o| > 1 {
      assert MembersText(o) == first + "," + MembersText(o[1..]);
    }
  }

  /** A name that is new to the object is appended by every later assignment. */
  lemma {:induction false} PutAllFresh(acc: seq<(string, string)>, o: seq<(string, string)>)
    requires DistinctKeys(acc + o)
    ensures PutAll(acc, o) == acc + o
    decreases |o|
  {
    if o != [] {
      FirstOfRestIsFresh(acc, o);
      assert acc + o == (acc + [o[0]]) + o[1..];
      PutAllFresh(acc + [o[0]], o[1..]);
    }
  }

  lemma {:induction false} FirstOfRestIsFresh(a: seq<(string, string)>, b: seq<(string, string)>)
    requires b != [] && DistinctKeys(a + b)
    ensures Lookup(a, b[0].0).None?
  {
    if a != [] {
      assert (a + b)[1..] == a[1..] + b;
      assert (a[1..] + b)[|a| - 1] == b[0];
      FirstOfRestIsFresh(a[1..], b);
    }
  }
}
