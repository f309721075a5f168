/** Payloads and their text form.

    The cache stores arbitrary JSON-serialisable payloads. Where a backend
    persists them (file contents, Redis values) it writes `Encode(payload)`
    and reads back with `Decode`, standing for JSON.stringify / JSON.parse.
    The concrete text format here is a self-delimiting prefix notation, not
    the JSON grammar; what the model relies on is the proved round trip
    `Decode(Encode(j)) == Ok(j)` and the fact that an encoding is never the
    empty string. */
module Json {
  import opened Wrappers
  import Collections

  /** A serialisable payload: maps (as ordered members), sequences, strings,
      numbers (integers only), booleans and null. */
  datatype Json =
    | JNull
    | JBool(b: bool)
    | JNum(n: int)
    | JStr(s: string)
    | JArr(items: seq<Json>)
    | JObj(members: seq<Member>)

  datatype Member = Member(key: string, val: Json)

  /** A JavaScript value as an operation hands it back: `undefined`, or a payload
      (which includes `null` and `false`). */
  datatype Value = Undefined | Defined(json: Json)

  /** JavaScript truthiness of a payload. */
  predicate Truthy(j: Json) {
    match j
    case JNull => false
    case JBool(b) => b
    case JNum(n) => n != 0
    case JStr(s) => s != ""
    case JArr(_) => true
    case JObj(_) => true
  }

  /** `!value` in JavaScript: what the tests check with `to.be.not.ok`. */
  predicate IsFalsy(v: Value) {
    v.Undefined? || !Truthy(v.json)
  }

  /** JSON.parse rejects the text. */
  datatype ParseError = SyntaxError

  // ---------------------------------------------------------------- encoding

  function DigitChar(d: nat): char
    requires d < 10
  {
    ('0' as int + d) as char
  }

  /** Decimal digits of `n`, least significant first. */
  function Digits(n: nat): string
    decreases n
  {
    [DigitChar(n % 10)] + (if n < 10 then "" else Digits(n / 10))
  }

  /** String body with `"` and `\` escaped by a backslash. */
  function Escape(s: string): string
  {
    if s == [] then []
    else (if s[0] == '"' || s[0] == '\\' then ['\\', s[0]] else [s[0]]) + Escape(s[1..])
  }

  function Encode(j: Json): (text: string)
    ensures |text| > 0
    ensures text[0] in {'n', 't', 'f', 'i', 's', '[', '{'}
  {
    match j
    case JNull => "n"
    case JBool(b) => if b then "t" else "f"
    case JNum(n) => "i" + (if n < 0 then "-" else "") + Digits(if n < 0 then -n else n) + ";"
    case JStr(s) => "s" + Escape(s) + "\""
    case JArr(items) => "[" + EncodeItems(items) + "]"
    case JObj(members) => "{" + EncodeMembers(members) + "}"
  }

  function EncodeItems(items: seq<Json>): string
  {
    if items == [] then "" else Encode(items[0]) + EncodeItems(items[1..])
  }

  function EncodeMembers(ms: seq<Member>): string
  {
    if ms == [] then ""
    else "s" + Escape(ms[0].key) + "\"" + Encode(ms[0].val) + EncodeMembers(ms[1..])
  }

  // ----------------------------------------------------------------- parsing
  // Each parser returns what it read and the unread rest, which is strictly
  // shorter than its input; the list parsers rely on that to terminate.

  function ParseDigits(s: string): (r: Option<(nat, string)>)
    ensures r.Some? ==> |r.value.1| < |s|
  {
    if s == [] then None
    else if s[0] == ';' then Some((0, s[1..]))
    else if '0' <= s[0] <= '9' then
      match ParseDigits(s[1..])
      case None => None
      case Some((n, rest)) => Some(((s[0] as int - '0' as int) + 10 * n, rest))
    else None
  }

  function ParseString(s: string): (r: Option<(string, string)>)
    ensures r.Some? ==> |r.value.1| < |s|
  {
    if s == [] then None
    else if s[0] == '"' then Some(([], s[1..]))
    else if s[0] == '\\' then
      if |s| < 2 then None
      else
        match ParseString(s[2..])
        case None => None
        case Some((t, rest)) => Some(([s[1]] + t, rest))
    else
      match ParseString(s[1..])
      case None => None
      case Some((t, rest)) => Some(([s[0]] + t, rest))
  }

  function ParseValue(s: string): (r: Option<(Json, string)>)
    ensures r.Some? ==> |r.value.1| < |s|
    decreases |s|, 0
  {
    if s == [] then None
    else if s[0] == 'n' then Some((JNull, s[1..]))
    else if s[0] == 't' then Some((JBool(true), s[1..]))
    else if s[0] == 'f' then Some((JBool(false), s[1..]))
    else if s[0] == 'i' then
      if |s| > 1 && s[1] == '-' then
        match ParseDigits(s[2..])
        case None => None
        case Some((n, rest)) => Some((JNum(-(n as int)), rest))
      else
        match ParseDigits(s[1..])
        case None => None
        case Some((n, rest)) => Some((JNum(n), rest))
    else if s[0] == 's' then
      match ParseString(s[1..])
      case None => None
      case Some((t, rest)) => Some((JStr(t), rest))
    else if s[0] == '[' then
      match ParseItems(s[1..])
      case None => None
      case Some((items, rest)) => Some((JArr(items), rest))
    else if s[0] == '{' then
      match ParseMembers(s[1..])
      case None => None
      case Some((ms, rest)) => Some((JObj(ms), rest))
    else None
  }

  function ParseItems(s: string): (r: Option<(seq<Json>, string)>)
    ensures r.Some? ==> |r.value.1| < |s|
    decreases |s|, 1
  {
    if s == [] then None
    else if s[0] == ']' then Some(([], s[1..]))
    else
      match ParseValue(s)
      case None => None
      case Some((j, rest)) =>
        match ParseItems(rest)
        case None => None
        case Some((js, rest')) => Some(([j] + js, rest'))
  }

  function ParseMembers(s: string): (r: Option<(seq<Member>, string)>)
    ensures r.Some? ==> |r.value.1| < |s|
    decreases |s|, 1
  {
    if s == [] then None
    else if s[0] == '}' then Some(([], s[1..]))
    else if s[0] == 's' then
      match ParseString(s[1..])
      case None => None
      case Some((key, rest1)) =>
        match ParseValue(rest1)
        case None => None
        case Some((v, rest2)) =>
          match ParseMembers(rest2)
          case None => None
          case Some((ms, rest3)) => Some(([Member(key, v)] + ms, rest3))
    else None
  }

  /** JSON.parse: the whole text must be one value. */
  function Decode(text: string): Result<Json, ParseError>
  {
    match ParseValue(text)
    case Some((j, rest)) => if rest == [] then Ok(j) else Err(SyntaxError)
    case None => Err(SyntaxError)
  }

  // -------------------------------------------------------------- round trip

  lemma {:induction false} DigitsRoundTrip(n: nat, rest: string)
    ensures ParseDigits(Digits(n) + ";" + rest) == Some((n, rest))
    decreases n
  {
    var s := Digits(n) + ";" + rest;
    if n < 10 {
      assert s == [DigitChar(n)] + (";" + rest);
      assert s[1..] == ";" + rest;
    } else {
      DigitsRoundTrip(n / 10, rest);
      assert s == [DigitChar(n % 10)] + (Digits(n / 10) + ";" + rest);
      assert s[1..] == Digits(n / 10) + ";" + rest;
    }
  }

  lemma {:induction false} StringRoundTrip(x: string, rest: string)
    ensures ParseString(Escape(x) + "\"" + rest) == Some((x, rest))
    decreases |x|
  {
    if x == [] {
      assert Escape(x) + "\"" + rest == "\"" + rest;
    } else {
      var tail := Escape(x[1..]) + "\"" + rest;
      StringRoundTrip(x[1..], rest);
      var head := if x[0] == '"' || x[0] == '\\' then ['\\', x[0]] else [x[0]];
      assert Escape(x) == head + Escape(x[1..]);
      Collections.Regroup3(head, Escape(x[1..]), "\"", rest);
      if x[0] == '"' || x[0] == '\\' {
        EscapedCons(x[0], tail, x[1..], rest);
      } else {
        PlainCons(x[0], tail, x[1..], rest);
      }
      Uncons(x);
    }
  }

  /** One character of a string body, escaped or not, then the rest. */
  lemma EscapedCons(c: char, tail: string, t: string, rest: string)
    requires ParseString(tail) == Some((t, rest))
    ensures ParseString(['\\', c] + tail) == Some(([c] + t, rest))
  {
    var s := ['\\', c] + tail;
    assert s[0] == '\\' && s[1] == c && s[2..] == tail;
  }

  lemma PlainCons(c: char, tail: string, t: string, rest: string)
    requires c != '"' && c != '\\' && ParseString(tail) == Some((t, rest))
    ensures ParseString([c] + tail) == Some(([c] + t, rest))
  {
    var s := [c] + tail;
    assert s[0] == c && s[1..] == tail;
  }

  lemma NumberRoundTrip(n: int, rest: string)
    ensures ParseValue(Encode(JNum(n)) + rest) == Some((JNum(n), rest))
  {
    var m: nat := if n < 0 then -n else n;
    var digits := Digits(m) + ";" + rest;
    DigitsRoundTrip(m, rest);
    if n < 0 {
      Negative(digits, m, rest);
      Collections.Regroup3("i", "-", Digits(m) + ";", rest);
      assert Encode(JNum(n)) + rest == "i" + ("-" + digits);
    } else {
      Positive(digits, m, rest);
      Collections.Regroup3("i", "", Digits(m) + ";", rest);
      assert Encode(JNum(n)) + rest == "i" + digits;
    }
  }

  /** A number's text: its tag, a minus sign when negative, then its
      digits. */
  lemma Negative(digits: string, m: nat, rest: string)
    requires ParseDigits(digits) == Some((m, rest))
    ensures ParseValue("i" + ("-" + digits)) == Some((JNum(-(m as int)), rest))
  {
    var s := "i" + ("-" + digits);
    assert s[0] == 'i' && s[1] == '-' && s[2..] == digits;
  }

  lemma Positive(digits: string, m: nat, rest: string)
    requires ParseDigits(digits) == Some((m, rest)) && digits[0] != '-'
    ensures ParseValue("i" + digits) == Some((JNum(m), rest))
  {
    var s := "i" + digits;
    assert s[0] == 'i' && s[1] == digits[0] && s[1..] == digits;
  }

  lemma {:induction false} ValueRoundTrip(j: Json, rest: string)
    ensures ParseValue(Encode(j) + rest) == Some((j, rest))
    decreases j
  {
    match j
    case JNull =>
    case JBool(b) =>
    case JNum(n) =>
      NumberRoundTrip(n, rest);
    case JStr(x) =>
      StringRoundTrip(x, rest);
      StrStep(x, rest);
    case JArr(items) =>
      ItemsRoundTrip(items, rest);
      ArrStep(items, rest);
    case JObj(ms) =>
      MembersRoundTrip(ms, rest);
      ObjStep(ms, rest);
  }

  /** A value whose text starts with its tag character: the parser reads
      the tag, then hands the rest to the parser for that kind of value. */
  lemma Tagged(tag: char, body: string)
    ensures ParseValue([tag] + body) ==
      if tag == 's' then
        match ParseString(body)
        case None => None
        case Some((t, rest)) => Some((JStr(t), rest))
      else if tag == '[' then
        match ParseItems(body)
        case None => None
        case Some((items, rest)) => Some((JArr(items), rest))
      else if tag == '{' then
        match ParseMembers(body)
        case None => None
        case Some((ms, rest)) => Some((JObj(ms), rest))
      else ParseValue([tag] + body)
  {
    assert ([tag] + body)[0] == tag && ([tag] + body)[1..] == body;
  }

  lemma StrStep(x: string, rest: string)
    requires ParseString(Escape(x) + "\"" + rest) == Some((x, rest))
    ensures ParseValue(Encode(JStr(x)) + rest) == Some((JStr(x), rest))
  {
    Tagged('s', Escape(x) + "\"" + rest);
    Collections.Regroup3("s", Escape(x), "\"", rest);
  }

  lemma ArrStep(items: seq<Json>, rest: string)
    requires ParseItems(EncodeItems(items) + "]" + rest) == Some((items, rest))
    ensures ParseValue(Encode(JArr(items)) + rest) == Some((JArr(items), rest))
  {
    Tagged('[', EncodeItems(items) + "]" + rest);
    Collections.Regroup3("[", EncodeItems(items), "]", rest);
  }

  lemma ObjStep(ms: seq<Member>, rest: string)
    requires ParseMembers(EncodeMembers(ms) + "}" + rest) == Some((ms, rest))
    ensures ParseValue(Encode(JObj(ms)) + rest) == Some((JObj(ms), rest))
  {
    Tagged('{', EncodeMembers(ms) + "}" + rest);
    Collections.Regroup3("{", EncodeMembers(ms), "}", rest);
  }

  lemma {:induction false} ItemsRoundTrip(items: seq<Json>, rest: string)
    ensures ParseItems(EncodeItems(items) + "]" + rest) == Some((items, rest))
    decreases items
  {
    var s := EncodeItems(items) + "]" + rest;
    if items == [] {
      assert s == "]" + rest;
    } else {
      var tail := EncodeItems(items[1..]) + "]" + rest;
      assert s == Encode(items[0]) + tail;
      ValueRoundTrip(items[0], tail);
      ItemsRoundTrip(items[1..], rest);
      assert [items[0]] + items[1..] == items;
    }
  }

  lemma {:induction false} MembersRoundTrip(ms: seq<Member>, rest: string)
    ensures ParseMembers(EncodeMembers(ms) + "}" + rest) == Some((ms, rest))
    decreases ms
  {
    if ms == [] {
      assert EncodeMembers(ms) + "}" + rest == "}" + rest;
    } else {
      var tail2 := EncodeMembers(ms[1..]) + "}" + rest;
      var tail1 := Encode(ms[0].val) + tail2;
      StringRoundTrip(ms[0].key, tail1);
      ValueRoundTrip(ms[0].val, tail2);
      MembersRoundTrip(ms[1..], rest);
      MemberStep(ms, rest);
    }
  }

  lemma MemberStep(ms: seq<Member>, rest: string)
    requires ms != []
    requires var tail2 := EncodeMembers(ms[1..]) + "}" + rest;
      var tail1 := Encode(ms[0].val) + tail2;
      && ParseString(Escape(ms[0].key) + "\"" + tail1) == Some((ms[0].key, tail1))
      && ParseValue(tail1) == Some((ms[0].val, tail2))
      && ParseMembers(tail2) == Some((ms[1..], rest))
    ensures ParseMembers(EncodeMembers(ms) + "}" + rest) == Some((ms, rest))
  {
    var key, v, more := Escape(ms[0].key), Encode(ms[0].val), EncodeMembers(ms[1..]);
    var tail2 := more + "}" + rest;
    var tail1 := v + tail2;
    MembersCons(key, ms[0].key, ms[0].val, ms[1..], tail1, tail2, rest);
    assert EncodeMembers(ms) == "s" + key + "\"" + v + more;
    Regroup(key, v, more, rest);
    assert Member(ms[0].key, ms[0].val) == ms[0];
    Uncons(ms);
  }

  lemma Uncons<T>(xs: seq<T>)
    requires xs != []
    ensures [xs[0]] + xs[1..] == xs
  {
  }

  /** One member: its tag, its key and its value, then the other members. */
  lemma MembersCons(k: string, key: string, v: Json, more: seq<Member>, tail1: string, tail2: string, rest: string)
    requires ParseString(k + "\"" + tail1) == Some((key, tail1))
    requires ParseValue(tail1) == Some((v, tail2))
    requires ParseMembers(tail2) == Some((more, rest))
    ensures ParseMembers("s" + (k + "\"" + tail1)) == Some(([Member(key, v)] + more, rest))
  {
    var s := "s" + (k + "\"" + tail1);
    assert s[0] == 's' && s[1..] == k + "\"" + tail1;
  }

  lemma Regroup(key: string, v: string, more: string, rest: string)
    ensures "s" + key + "\"" + v + more + "}" + rest == "s" + (key + "\"" + (v + (more + "}" + rest)))
  {
  }

  /** JSON.parse(JSON.stringify(x)) is x again. */
  lemma DecodeEncode(j: Json)
    ensures Decode(Encode(j)) == Ok(j)
  {
    ValueRoundTrip(j, []);
    assert Encode(j) + [] == Encode(j);
  }

  /** Distinct payloads have distinct encodings. */
  lemma EncodeInjective(j1: Json, j2: Json)
    requires Encode(j1) == Encode(j2)
    ensures j1 == j2
  {
    DecodeEncode(j1);
    DecodeEncode(j2);
  }

  const SyntaxErr := "SyntaxError"

  /** JSON.parse as the backends call it: a rejected text throws a
      SyntaxError, reported here by its name. */
  function Parse(text: string): (r: Result<Json, string>)
    ensures r.Err? ==> r.error == SyntaxErr
  {
    match Decode(text)
    case Ok(j) => Ok(j)
    case Err(_) => Err(SyntaxErr)
  }

  /** What a backend writes it reads back, and it never writes "". */
  lemma ParseEncode(p: Json)
    ensures Parse(Encode(p)) == Ok(p) && Encode(p) != ""
  {
    DecodeEncode(p);
  }
}
