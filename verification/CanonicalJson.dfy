/** The serialization that a plan's hash covers: JSON with sorted keys, compact
    separators and non-ASCII text kept as itself.

    A decoder following RFC 8259 recovers the value from the text, so two values
    have one payload exactly when they are the same value. */
module CanonicalJson {
  import opened Prelude
  import opened Sorting

  datatype Json =
    | JNull
    | JBool(b: bool)
    | JInt(n: int)
    | JString(s: string)
    | JArray(elems: seq<Json>)
    | JObject(entries: seq<Entry>)

  datatype Entry = Entry(key: string, value: Json)

  /** A dictionary never holds one key twice, at any depth. */
  ghost predicate WellFormed(v: Json) {
    match v
    case JArray(elems) => forall i :: 0 <= i < |elems| ==> WellFormed(elems[i])
    case JObject(entries) =>
      && (forall i, j :: 0 <= i < j < |entries| ==> entries[i].key != entries[j].key)
      && (forall i :: 0 <= i < |entries| ==> WellFormed(entries[i].value))
    case _ => true
  }

  /** Python's `==`: arrays in order, dictionaries whatever the order of their keys. */
  ghost predicate SameValue(v: Json, w: Json) {
    match v
    case JArray(elems) =>
      && w.JArray? && |elems| == |w.elems|
      && (forall i :: 0 <= i < |elems| ==> SameValue(elems[i], w.elems[i]))
    case JObject(entries) =>
      && w.JObject? && |entries| == |w.entries|
      && (forall i :: 0 <= i < |entries| ==>
            exists j :: 0 <= j < |w.entries| && w.entries[j].key == entries[i].key
                        && SameValue(entries[i].value, w.entries[j].value))
    case _ => v == w
  }

  // ---- Printing -------------------------------------------------------------

  function Digit(d: nat): char requires d < 10 { '0' + d as char }

  function NatText(n: nat): (r: string) ensures |r| > 0 {
    if n < 10 then [Digit(n)] else NatText(n / 10) + [Digit(n % 10)]
  }

  function IntText(n: int): string {
    if n < 0 then "-" + NatText(-n) else NatText(n)
  }

  function HexDigit(d: nat): char requires d < 16 {
    if d < 10 then '0' + d as char else 'a' + (d - 10) as char
  }

  /** One character of a string body: escaped where JSON requires it, itself otherwise. */
  function Escape(c: char): string {
    if c == '\"' then "\\\""
    else if c == '\\' then "\\\\"
    else if c == '\n' then "\\n"
    else if c == '\r' then "\\r"
    else if c == '\t' then "\\t"
    else if c as int == 8 then "\\b"
    else if c as int == 12 then "\\f"
    else if c as int < 32 then "\\u00" + [HexDigit(c as int / 16), HexDigit(c as int % 16)]
    else [c]
  }

  function EscapeAll(s: string): string {
    if s == "" then "" else Escape(s[0]) + EscapeAll(s[1..])
  }

  function Quote(s: string): string { "\"" + EscapeAll(s) + "\"" }

  function Print(v: Json): string
    decreases v, 0
  {
    match v
    case JNull => "null"
    case JBool(b) => if b then "true" else "false"
    case JInt(n) => IntText(n)
    case JString(s) => Quote(s)
    case JArray(elems) => "[" + PrintElems(elems) + "]"
    case JObject(entries) => "{" + PrintEntries(entries) + "}"
  }

  function PrintElems(elems: seq<Json>): string
    decreases elems, 1
  {
    if elems == [] then ""
    else if |elems| == 1 then Print(elems[0])
    else Print(elems[0]) + "," + PrintElems(elems[1..])
  }

  function PrintEntries(entries: seq<Entry>): string
    decreases entries, 1
  {
    if entries == [] then ""
    else
      var first := Quote(entries[0].key) + ":" + Print(entries[0].value);
      if |entries| == 1 then first else first + "," + PrintEntries(entries[1..])
  }

  /** Code-point order, as `sort_keys` compares keys. */
  predicate KeyLe(a: string, b: string) {
    a == "" || (b != "" && (a[0] < b[0] || (a[0] == b[0] && KeyLe(a[1..], b[1..]))))
  }

  predicate EntryLe(a: Entry, b: Entry) { KeyLe(a.key, b.key) }

  function Canon(v: Json): Json
    decreases v, 0
  {
    match v
    case JArray(elems) => JArray(CanonElems(elems))
    case JObject(entries) => JObject(Sort(EntryLe, CanonEntries(entries)))
    case _ => v
  }

  function CanonElems(elems: seq<Json>): (r: seq<Json>)
    ensures |r| == |elems|
    ensures forall i :: 0 <= i < |r| ==> r[i] == Canon(elems[i])
    decreases elems, 1
  {
    if elems == [] then [] else [Canon(elems[0])] + CanonElems(elems[1..])
  }

  function CanonEntries(entries: seq<Entry>): (r: seq<Entry>)
    ensures |r| == |entries|
    ensures forall i :: 0 <= i < |r| ==> r[i] == Entry(entries[i].key, Canon(entries[i].value))
    decreases entries, 1
  {
    if entries == [] then [] else [Entry(entries[0].key, Canon(entries[0].value))] + CanonEntries(entries[1..])
  }

  /** `json.dumps(v, sort_keys=True, separators=(",", ":"), ensure_ascii=False)`. */
  function Payload(v: Json): string { Print(Canon(v)) }

  // ---- Parsing --------------------------------------------------------------

  predicate IsDigit(c: char) { '0' <= c <= '9' }

  function DigitRun(s: string): nat
    ensures DigitRun(s) <= |s|
  {
    if s != "" && IsDigit(s[0]) then 1 + DigitRun(s[1..]) else 0
  }

  function NatValue(s: string): (r: nat)
    requires forall i :: 0 <= i < |s| ==> IsDigit(s[i])
  {
    if s == "" then 0
    else
      assert IsDigit(s[|s| - 1]);
      NatValue(s[..|s| - 1]) * 10 + (s[|s| - 1] as int - '0' as int)
  }

  lemma {:induction false} DigitRunDigits(s: string, i: nat)
    requires i < DigitRun(s)
    ensures IsDigit(s[i])
  {
    if i > 0 { DigitRunDigits(s[1..], i - 1); }
  }

  function ParseNat(s: string): Option<(nat, string)> {
    var n := DigitRun(s);
    if n == 0 then None else
      assert forall i :: 0 <= i < n ==> IsDigit(s[..n][i]) by {
        forall i | 0 <= i < n ensures IsDigit(s[..n][i]) { DigitRunDigits(s, i); }
      }
      Some((NatValue(s[..n]), s[n..]))
  }

  function HexValue(c: char): Option<nat> {
    if '0' <= c <= '9' then Some(c as int - '0' as int)
    else if 'a' <= c <= 'f' then Some(c as int - 'a' as int + 10)
    else if 'A' <= c <= 'F' then Some(c as int - 'A' as int + 10)
    else None
  }

  /** The character after a backslash, and how much text it took. */
  function Unescape(s: string): Option<(char, nat)>
    requires s != ""
    ensures Unescape(s).Some? ==> 1 <= Unescape(s).value.1 <= |s|
  {
    if s[0] == '\"' then Some(('\"', 1))
    else if s[0] == '\\' then Some(('\\', 1))
    else if s[0] == '/' then Some(('/', 1))
    else if s[0] == 'n' then Some(('\n', 1))
    else if s[0] == 'r' then Some(('\r', 1))
    else if s[0] == 't' then Some(('\t', 1))
    else if s[0] == 'b' then Some((8 as char, 1))
    else if s[0] == 'f' then Some((12 as char, 1))
    else if s[0] == 'u' && |s| >= 5 then
      match (HexValue(s[1]), HexValue(s[2]), HexValue(s[3]), HexValue(s[4]))
      case (Some(a), Some(b), Some(c), Some(d)) =>
        var code := ((a * 16 + b) * 16 + c) * 16 + d;
        if 0 <= code < 0xD800 then Some((code as char, 5)) else None
      case _ => None
    else None
  }

  /** The rest of a string literal, up to and including its closing quote. */
  function ParseChars(s: string): (r: Option<(string, string)>)
    ensures r.Some? ==> |r.value.1| < |s|
    decreases |s|
  {
    if s == "" then None
    else if s[0] == '\"' then Some(("", s[1..]))
    else if s[0] == '\\' then
      if |s| == 1 then None else
        match Unescape(s[1..])
        case None => None
        case Some((c, used)) =>
          match ParseChars(s[1 + used..])
          case None => None
          case Some((t, rest)) => Some(([c] + t, rest))
    else if s[0] as int < 32 then None
    else
      match ParseChars(s[1..])
      case None => None
      case Some((t, rest)) => Some(([s[0]] + t, rest))
  }

  predicate StartsWith(s: string, prefix: string) {
    |prefix| <= |s| && s[..|prefix|] == prefix
  }

  function ParseValue(s: string): (r: Option<(Json, string)>)
    ensures r.Some? ==> |r.value.1| < |s|
    decreases |s|, 0
  {
    if s == "" then None
    else if s[0] == 'n' then if StartsWith(s, "null") then Some((JNull, s[4..])) else None
    else if s[0] == 't' then if StartsWith(s, "true") then Some((JBool(true), s[4..])) else None
    else if s[0] == 'f' then if StartsWith(s, "false") then Some((JBool(false), s[5..])) else None
    else if s[0] == '\"' then
      match ParseChars(s[1..])
      case None => None
      case Some((t, rest)) => Some((JString(t), rest))
    else if s[0] == '[' then
      if |s| > 1 && s[1] == ']' then Some((JArray([]), s[2..])) else
        match ParseElems(s[1..])
        case None => None
        case Some((elems, rest)) => Some((JArray(elems), rest))
    else if s[0] == '{' then
      if |s| > 1 && s[1] == '}' then Some((JObject([]), s[2..])) else
        match ParseEntries(s[1..])
        case None => None
        case Some((entries, rest)) => Some((JObject(entries), rest))
    else if s[0] == '-' then
      match ParseNat(s[1..])
      case None => None
      case Some((n, rest)) => Some((JInt(0 - n), rest))
    else
      match ParseNat(s)
      case None => None
      case Some((n, rest)) => Some((JInt(n), rest))
  }

  /** One or more elements and the closing bracket. */
  function ParseElems(s: string): (r: Option<(seq<Json>, string)>)
    ensures r.Some? ==> |r.value.1| < |s|
    decreases |s|, 1
  {
    match ParseValue(s)
    case None => None
    case Some((v, rest)) =>
      if rest != "" && rest[0] == ']' then Some(([v], rest[1..]))
      else if rest != "" && rest[0] == ',' then
        match ParseElems(rest[1..])
        case None => None
        case Some((vs, end)) => Some(([v] + vs, end))
      else None
  }

  /** One or more entries and the closing brace. */
  function ParseEntries(s: string): (r: Option<(seq<Entry>, string)>)
    ensures r.Some? ==> |r.value.1| < |s|
    decreases |s|, 1
  {
    if s == "" || s[0] != '\"' then None else
      match ParseChars(s[1..])
      case None => None
      case Some((key, colon)) =>
        if colon == "" || colon[0] != ':' then None else
          match ParseValue(colon[1..])
          case None => None
          case Some((v, rest)) =>
            if rest != "" && rest[0] == '}' then Some(([Entry(key, v)], rest[1..]))
            else if rest != "" && rest[0] == ',' then
              match ParseEntries(rest[1..])
              case None => None
              case Some((more, end)) => Some(([Entry(key, v)] + more, end))
            else None
  }

  function Parse(s: string): Option<Json> {
    match ParseValue(s)
    case None => None
    case Some((v, rest)) => if rest == "" then Some(v) else None
  }

  // ---- The decoder inverts the printer --------------------------------------

  lemma {:induction false} NatTextDigits(n: nat)
    ensures forall i :: 0 <= i < |NatText(n)| ==> IsDigit(NatText(n)[i])
    ensures NatValue(NatText(n)) == n
  {
    if n >= 10 {
      NatTextDigits(n / 10);
      assert NatText(n)[..|NatText(n)| - 1] == NatText(n / 10);
    }
  }

  lemma {:induction false} DigitRunOf(digits: string, rest: string)
    requires forall i :: 0 <= i < |digits| ==> IsDigit(digits[i])
    requires rest == "" || !IsDigit(rest[0])
    ensures DigitRun(digits + rest) == |digits|
  {
    if digits == "" {
      assert digits + rest == rest;
    } else {
      assert (digits + rest)[1..] == digits[1..] + rest;
      DigitRunOf(digits[1..], rest);
    }
  }

  lemma ParseNatText(n: nat, rest: string)
    requires rest == "" || !IsDigit(rest[0])
    ensures ParseNat(NatText(n) + rest) == Some((n, rest))
    ensures IsDigit((NatText(n) + rest)[0])
  {
    var text := NatText(n);
    NatTextDigits(n);
    DigitRunOf(text, rest);
    assert (text + rest)[..|text|] == text && (text + rest)[|text|..] == rest;
  }

  predicate ShortEscape(c: char) {
    c == '\"' || c == '\\' || c == '\n' || c == '\r' || c == '\t' || c as int == 8 || c as int == 12
  }

  lemma UnescapeShort(c: char, rest: string)
    requires ShortEscape(c)
    ensures |Escape(c)| == 2 && Escape(c)[0] == '\\'
    ensures Unescape([Escape(c)[1]] + rest) == Some((c, 1))
  {
  }

  lemma UnescapeHex(c: char, rest: string)
    requires c as int < 32 && !ShortEscape(c)
    ensures |Escape(c)| == 6 && Escape(c)[0] == '\\'
    ensures Unescape(Escape(c)[1..] + rest) == Some((c, 5))
  {
    var hi, lo := c as int / 16, c as int % 16;
    var text := Escape(c)[1..] + rest;
    assert text[0] == 'u' && text[1] == '0' && text[2] == '0' && text[3] == HexDigit(hi) && text[4] == HexDigit(lo);
    assert HexValue(HexDigit(hi)) == Some(hi) && HexValue(HexDigit(lo)) == Some(lo);
  }

  lemma ParseUnescaped(s: string, c: char, used: nat, rest: string)
    requires |s| > 1 && s[0] == '\\' && Unescape(s[1..]) == Some((c, used)) && s[1 + used..] == rest
    ensures ParseChars(s) == match ParseChars(rest) case None => None case Some((t, end)) => Some(([c] + t, end))
  {
  }

  lemma ParseEscape(c: char, rest: string)
    ensures ParseChars(Escape(c) + rest) ==
            match ParseChars(rest) case None => None case Some((t, end)) => Some(([c] + t, end))
  {
    var text := Escape(c) + rest;
    assert text[|Escape(c)|..] == rest;
    if ShortEscape(c) {
      UnescapeShort(c, rest);
      assert text[1..] == [Escape(c)[1]] + rest;
      ParseUnescaped(text, c, 1, rest);
    } else if c as int < 32 {
      UnescapeHex(c, rest);
      assert text[1..] == Escape(c)[1..] + rest;
      ParseUnescaped(text, c, 5, rest);
    }
  }

  lemma EscapeFirst(s: string, rest: string)
    requires s != ""
    ensures EscapeAll(s) + "\"" + rest == Escape(s[0]) + (EscapeAll(s[1..]) + "\"" + rest)
  {
  }

  lemma {:induction false} ParseQuoted(s: string, rest: string)
    ensures ParseChars(EscapeAll(s) + "\"" + rest) == Some((s, rest))
  {
    if s == "" {
      assert EscapeAll(s) + "\"" + rest == "\"" + rest;
    } else {
      var tail := EscapeAll(s[1..]) + "\"" + rest;
      ParseQuoted(s[1..], rest);
      ParseEscape(s[0], tail);
      EscapeFirst(s, rest);
      assert s == [s[0]] + s[1..];
    }
  }

  lemma ParseQuote(s: string, rest: string)
    ensures (Quote(s) + rest)[0] == '\"'
    ensures ParseChars((Quote(s) + rest)[1..]) == Some((s, rest))
  {
    ParseQuoted(s, rest);
    assert (Quote(s) + rest)[1..] == EscapeAll(s) + "\"" + rest;
  }

  lemma PrefixOf(prefix: string, rest: string)
    ensures StartsWith(prefix + rest, prefix) && (prefix + rest)[|prefix|..] == rest
  {
  }

  lemma MinusText(n: int, rest: string)
    requires n < 0
    ensures (IntText(n) + rest)[0] == '-' && (IntText(n) + rest)[1..] == NatText(-n) + rest
  {
  }

  lemma ParseNegative(n: int, rest: string)
    requires n < 0 && (rest == "" || !IsDigit(rest[0]))
    ensures ParseValue(IntText(n) + rest) == Some((JInt(n), rest))
    ensures (IntText(n) + rest)[0] == '-'
  {
    ParseNatText(-n, rest);
    MinusText(n, rest);
  }

  lemma ParsePositive(n: nat, rest: string)
    requires rest == "" || !IsDigit(rest[0])
    ensures ParseValue(NatText(n) + rest) == Some((JInt(n), rest))
    ensures IsDigit((NatText(n) + rest)[0])
  {
    ParseNatText(n, rest);
  }

  lemma ParseInt(n: int, rest: string)
    requires rest == "" || !IsDigit(rest[0])
    ensures ParseValue(IntText(n) + rest) == Some((JInt(n), rest))
    ensures var c := (IntText(n) + rest)[0]; c == '-' || IsDigit(c)
  {
    if n < 0 { ParseNegative(n, rest); } else { ParsePositive(n, rest); }
  }

  lemma ParsePrintScalar(v: Json, rest: string)
    requires !v.JArray? && !v.JObject?
    requires rest == "" || !IsDigit(rest[0])
    ensures ParseValue(Print(v) + rest) == Some((v, rest))
    ensures (Print(v) + rest)[0] != ']' && (Print(v) + rest)[0] != '}'
  {
    match v
    case JString(s) => ParseQuote(s, rest);
    case JInt(n) => ParseInt(n, rest);
    case _ => PrefixOf(Print(v), rest);
  }

  lemma ParseBracketed(text: string, body: string)
    requires text != "" && text[1..] == body && body != ""
    ensures text[0] == '[' && body[0] == ']' ==> ParseValue(text) == Some((JArray([]), body[1..]))
    ensures text[0] == '{' && body[0] == '}' ==> ParseValue(text) == Some((JObject([]), body[1..]))
    ensures text[0] == '[' && body[0] != ']' && ParseElems(body).Some? ==>
              ParseValue(text) == Some((JArray(ParseElems(body).value.0), ParseElems(body).value.1))
    ensures text[0] == '{' && body[0] != '}' && ParseEntries(body).Some? ==>
              ParseValue(text) == Some((JObject(ParseEntries(body).value.0), ParseEntries(body).value.1))
  {
    assert |text| > 1 && text[1] == body[0] && text[2..] == body[1..];
  }

  /** Reading back what was printed gives the value and leaves what followed it. */
  lemma {:induction false} ParsePrint(v: Json, rest: string)
    requires rest == "" || !IsDigit(rest[0])
    ensures ParseValue(Print(v) + rest) == Some((v, rest))
    ensures (Print(v) + rest)[0] != ']' && (Print(v) + rest)[0] != '}'
    decreases v, 0
  {
    var text := Print(v) + rest;
    match v
    case JArray(elems) =>
      var body := PrintElems(elems) + "]" + rest;
      assert text[1..] == body;
      if elems == [] { assert body[1..] == rest; } else { ParsePrintElems(elems, rest); }
      ParseBracketed(text, body);
    case JObject(entries) =>
      var body := PrintEntries(entries) + "}" + rest;
      assert text[1..] == body;
      if entries == [] { assert body[1..] == rest; } else { ParsePrintEntries(entries, rest); }
      ParseBracketed(text, body);
    case _ => ParsePrintScalar(v, rest);
  }

  lemma PrintMoreElems(elems: seq<Json>, rest: string)
    requires |elems| > 1
    ensures PrintElems(elems) + "]" + rest == Print(elems[0]) + ("," + (PrintElems(elems[1..]) + "]" + rest))
  {
    assert PrintElems(elems) == Print(elems[0]) + "," + PrintElems(elems[1..]);
    RegroupedElems(Print(elems[0]), PrintElems(elems[1..]), rest);
  }

  lemma RegroupedElems(first: string, others: string, rest: string)
    ensures first + "," + others + "]" + rest == first + ("," + (others + "]" + rest))
  {
  }

  lemma ParseElem(text: string, v: Json, tail: string)
    requires text == Print(v) + tail && ParseValue(text) == Some((v, tail)) && tail != ""
    ensures tail[0] == ']' ==> ParseElems(text) == Some(([v], tail[1..]))
    ensures tail[0] == ',' && ParseElems(tail[1..]).Some? ==>
      ParseElems(text) == Some(([v] + ParseElems(tail[1..]).value.0, ParseElems(tail[1..]).value.1))
  {
  }

  lemma ParseLastElem(v: Json, rest: string)
    requires ParseValue(Print(v) + ("]" + rest)) == Some((v, "]" + rest)) && (Print(v) + ("]" + rest))[0] != ']'
    ensures ParseElems(PrintElems([v]) + "]" + rest) == Some(([v], rest))
    ensures (PrintElems([v]) + "]" + rest)[0] != ']'
  {
    assert PrintElems([v]) == Print(v);
    assert Print(v) + "]" + rest == Print(v) + ("]" + rest);
    ParseElem(Print(v) + ("]" + rest), v, "]" + rest);
  }

  lemma ParseMoreElems(elems: seq<Json>, rest: string, more: string)
    requires |elems| > 1 && more == PrintElems(elems[1..]) + "]" + rest && ParseElems(more) == Some((elems[1..], rest))
    requires ParseValue(Print(elems[0]) + ("," + more)) == Some((elems[0], "," + more))
    requires (Print(elems[0]) + ("," + more))[0] != ']'
    ensures ParseElems(PrintElems(elems) + "]" + rest) == Some((elems, rest))
    ensures (PrintElems(elems) + "]" + rest)[0] != ']'
  {
    PrintMoreElems(elems, rest);
    assert ("," + more)[1..] == more;
    ParseElem(Print(elems[0]) + ("," + more), elems[0], "," + more);
    assert elems == [elems[0]] + elems[1..];
  }

  lemma {:induction false} ParsePrintElems(elems: seq<Json>, rest: string)
    requires elems != []
    ensures ParseElems(PrintElems(elems) + "]" + rest) == Some((elems, rest))
    ensures (PrintElems(elems) + "]" + rest)[0] != ']'
    decreases elems, 1
  {
    if |elems| == 1 {
      ParsePrint(elems[0], "]" + rest);
      assert elems == [elems[0]];
      ParseLastElem(elems[0], rest);
    } else {
      var more := PrintElems(elems[1..]) + "]" + rest;
      ParsePrint(elems[0], "," + more);
      ParsePrintElems(elems[1..], rest);
      ParseMoreElems(elems, rest, more);
    }
  }

  lemma ParseEntry(text: string, key: string, v: Json, tail: string)
    requires text == Quote(key) + (":" + (Print(v) + tail))
    requires ParseValue(Print(v) + tail) == Some((v, tail)) && tail != ""
    ensures text[0] == '\"'
    ensures tail[0] == '}' ==> ParseEntries(text) == Some(([Entry(key, v)], tail[1..]))
    ensures tail[0] == ',' && ParseEntries(tail[1..]).Some? ==>
              ParseEntries(text) ==
              Some(([Entry(key, v)] + ParseEntries(tail[1..]).value.0, ParseEntries(tail[1..]).value.1))
  {
    var body := ":" + (Print(v) + tail);
    ParseQuote(key, body);
    assert body[1..] == Print(v) + tail;
  }

  lemma Reassociate(a: string, b: string, c: string, d: string)
    ensures ((a + b) + c) + d == a + (b + (c + d))
  {
  }

  lemma PrintLastEntry(e: Entry, rest: string)
    ensures PrintEntries([e]) + "}" + rest == Quote(e.key) + (":" + (Print(e.value) + ("}" + rest)))
  {
    var first := Quote(e.key) + ":" + Print(e.value);
    assert PrintEntries([e]) == first;
    Reassociate(first, "}", rest, "");
    assert first + "}" + rest == first + ("}" + rest);
    Reassociate(Quote(e.key), ":", Print(e.value), "}" + rest);
  }

  lemma PrintMoreEntries(entries: seq<Entry>, rest: string)
    requires |entries| > 1
    ensures var e := entries[0];
      PrintEntries(entries) + "}" + rest ==
      Quote(e.key) + (":" + (Print(e.value) + ("," + (PrintEntries(entries[1..]) + "}" + rest))))
  {
    var e, others := entries[0], PrintEntries(entries[1..]);
    var first := Quote(e.key) + ":" + Print(e.value);
    assert PrintEntries(entries) == first + "," + others;
    Reassociate(first + ",", others, "}", rest);
    Reassociate(first, ",", others + "}", rest);
    Regrouped(first, others, rest);
    Reassociate(Quote(e.key), ":", Print(e.value), "," + (others + "}" + rest));
  }

  lemma Regrouped(first: string, others: string, rest: string)
    ensures first + "," + others + "}" + rest == first + ("," + (others + "}" + rest))
  {
  }

  lemma PrintEntriesText(entries: seq<Entry>, rest: string) returns (more: string, tail: string)
    requires entries != []
    ensures more == if |entries| == 1 then rest else PrintEntries(entries[1..]) + "}" + rest
    ensures tail != "" && tail[0] == (if |entries| == 1 then '}' else ',') && tail[1..] == more
    ensures PrintEntries(entries) + "}" + rest ==
            Quote(entries[0].key) + (":" + (Print(entries[0].value) + tail))
  {
    more := if |entries| == 1 then rest else PrintEntries(entries[1..]) + "}" + rest;
    if |entries| == 1 {
      assert entries == [entries[0]];
      tail := "}" + more;
      PrintLastEntry(entries[0], rest);
    } else {
      tail := "," + more;
      PrintMoreEntries(entries, rest);
    }
  }

  lemma {:induction false} ParsePrintEntries(entries: seq<Entry>, rest: string)
    requires entries != []
    ensures ParseEntries(PrintEntries(entries) + "}" + rest) == Some((entries, rest))
    ensures (PrintEntries(entries) + "}" + rest)[0] == '\"'
    decreases entries, 1
  {
    var more, tail := PrintEntriesText(entries, rest);
    var text := PrintEntries(entries) + "}" + rest;
    ParsePrint(entries[0].value, tail);
    if |entries| > 1 { ParsePrintEntries(entries[1..], rest); }
    ParseEntry(text, entries[0].key, entries[0].value, tail);
    if |entries| == 1 {
      assert [Entry(entries[0].key, entries[0].value)] == entries;
    } else {
      assert [Entry(entries[0].key, entries[0].value)] + entries[1..] == entries;
    }
  }

  /** The decoder recovers the hashed value from its payload, keys in sorted order. */
  lemma DecodePayload(v: Json)
    ensures Parse(Payload(v)) == Some(Canon(v))
  {
    ParsePrint(Canon(v), "");
    assert Print(Canon(v)) + "" == Print(Canon(v));
  }

  // ---- One payload, one value -----------------------------------------------

  lemma {:induction false} KeyLeTotal(a: string, b: string)
    ensures KeyLe(a, b) || KeyLe(b, a)
    ensures KeyLe(a, b) && KeyLe(b, a) ==> a == b
  {
    if a != "" && b != "" {
      KeyLeTotal(a[1..], b[1..]);
      assert a == [a[0]] + a[1..] && b == [b[0]] + b[1..];
    }
  }

  lemma {:induction false} KeyLeTransitive(a: string, b: string, c: string)
    requires KeyLe(a, b) && KeyLe(b, c)
    ensures KeyLe(a, c)
  {
    if a != "" && a[0] == b[0] && b[0] == c[0] { KeyLeTransitive(a[1..], b[1..], c[1..]); }
  }

  lemma EntryLeLinear(entries: seq<Entry>)
    requires forall i, j :: 0 <= i < j < |entries| ==> entries[i].key != entries[j].key
    ensures LinearOn(EntryLe, entries)
  {
    forall a, b | a in entries && b in entries
      ensures EntryLe(a, b) || EntryLe(b, a)
      ensures EntryLe(a, b) && EntryLe(b, a) ==> a == b
    {
      KeyLeTotal(a.key, b.key);
      var i :| 0 <= i < |entries| && entries[i] == a;
      var j :| 0 <= j < |entries| && entries[j] == b;
      assert i < j || j < i || a == b;
    }
    forall a, b, c | a in entries && b in entries && c in entries && EntryLe(a, b) && EntryLe(b, c)
      ensures EntryLe(a, c)
    {
      KeyLeTransitive(a.key, b.key, c.key);
    }
  }

  /** Two entry lists with distinct keys hold the same entries when one covers the other. */
  lemma SameEntries(xs: seq<Entry>, ys: seq<Entry>)
    requires forall i, j :: 0 <= i < j < |xs| ==> xs[i].key != xs[j].key
    requires forall i, j :: 0 <= i < j < |ys| ==> ys[i].key != ys[j].key
    requires |xs| == |ys| && forall x :: x in xs ==> x in ys
    ensures multiset(xs) == multiset(ys)
  {
    DistinctMultiset(xs);
    DistinctMultiset(ys);
    forall x ensures multiset(xs)[x] <= multiset(ys)[x] {
      assert multiset(xs)[x] <= 1;
      assert x in multiset(xs) <==> x in xs;
      assert x in multiset(ys) <==> x in ys;
    }
    assert |multiset(ys) - multiset(xs)| == |multiset(ys)| - |multiset(xs)|;
    assert multiset(xs) <= multiset(ys);
  }

  lemma {:induction false} CanonSound(v: Json, w: Json)
    requires WellFormed(v) && WellFormed(w) && SameValue(v, w)
    ensures Canon(v) == Canon(w)
    decreases v
  {
    match v
    case JArray(elems) =>
      forall i | 0 <= i < |elems| ensures CanonElems(elems)[i] == CanonElems(w.elems)[i] {
        CanonSound(elems[i], w.elems[i]);
      }
      assert CanonElems(elems) == CanonElems(w.elems);
    case JObject(entries) =>
      var xs, ys := CanonEntries(entries), CanonEntries(w.entries);
      forall x | x in xs ensures x in ys {
        var i :| 0 <= i < |xs| && xs[i] == x;
        var j :| 0 <= j < |w.entries| && w.entries[j].key == entries[i].key
                 && SameValue(entries[i].value, w.entries[j].value);
        CanonSound(entries[i].value, w.entries[j].value);
        assert ys[j] == x;
      }
      SameEntries(xs, ys);
      SortedEntriesAgree(xs, ys);
    case _ =>
  }

  lemma SortedEntriesAgree(xs: seq<Entry>, ys: seq<Entry>)
    requires forall i, j :: 0 <= i < j < |xs| ==> xs[i].key != xs[j].key
    requires multiset(xs) == multiset(ys)
    ensures Sort(EntryLe, xs) == Sort(EntryLe, ys)
  {
    EntryLeLinear(xs);
    SameElements(xs, ys);
    SortOrders(EntryLe, xs);
    SortOrders(EntryLe, ys);
    SameElements(xs, Sort(EntryLe, xs));
    OrderedUnique(EntryLe, Sort(EntryLe, xs), Sort(EntryLe, ys));
  }

  lemma SortedEntriesMatch(xs: seq<Entry>, ys: seq<Entry>, i: nat) returns (j: nat)
    requires Sort(EntryLe, xs) == Sort(EntryLe, ys) && i < |xs|
    ensures |xs| == |ys| && j < |ys| && ys[j] == xs[i]
  {
    assert multiset(xs) == multiset(Sort(EntryLe, xs)) == multiset(ys);
    SameElements(xs, ys);
    assert xs[i] in ys;
    j :| 0 <= j < |ys| && ys[j] == xs[i];
  }

  lemma {:induction false} CanonComplete(v: Json, w: Json)
    requires Canon(v) == Canon(w)
    ensures SameValue(v, w)
    decreases v, 1
  {
    if v.JArray? {
      forall i | 0 <= i < |v.elems| ensures SameValue(v.elems[i], w.elems[i]) {
        assert CanonElems(v.elems)[i] == CanonElems(w.elems)[i];
        CanonComplete(v.elems[i], w.elems[i]);
      }
    } else if v.JObject? {
      SortedEntriesLength(CanonEntries(v.entries), CanonEntries(w.entries));
      forall i | 0 <= i < |v.entries|
        ensures exists j :: 0 <= j < |w.entries| && w.entries[j].key == v.entries[i].key
                            && SameValue(v.entries[i].value, w.entries[j].value)
      {
        var j := CanonCompleteEntry(v, w, i);
      }
    }
  }

  lemma SortedEntriesLength(xs: seq<Entry>, ys: seq<Entry>)
    requires Sort(EntryLe, xs) == Sort(EntryLe, ys)
    ensures |xs| == |ys|
  {
    assert |Sort(EntryLe, xs)| == |xs|;
  }

  lemma CanonCompleteEntry(v: Json, w: Json, i: nat) returns (j: nat)
    requires v.JObject? && w.JObject? && i < |v.entries|
    requires Sort(EntryLe, CanonEntries(v.entries)) == Sort(EntryLe, CanonEntries(w.entries))
    ensures j < |w.entries| && w.entries[j].key == v.entries[i].key
    ensures SameValue(v.entries[i].value, w.entries[j].value)
    decreases v, 0
  {
    j := SortedEntriesMatch(CanonEntries(v.entries), CanonEntries(w.entries), i);
    CanonComplete(v.entries[i].value, w.entries[j].value);
  }

  /** The canonical payload is injective: any changed byte, extra key or reordered
      array element changes it, and reordering a dictionary's keys does not. */
  lemma PayloadInjective(v: Json, w: Json)
    requires WellFormed(v) && WellFormed(w)
    ensures Payload(v) == Payload(w) <==> SameValue(v, w)
  {
    if SameValue(v, w) { CanonSound(v, w); }
    if Payload(v) == Payload(w) {
      DecodePayload(v);
      DecodePayload(w);
      CanonComplete(v, w);
    }
  }
}
