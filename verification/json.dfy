/** The JSON text `json.dumps(..., indent=4)` writes for strings, arrays and
    objects (members in the order given), and an exact reader of that text.
    Escaping covers `"` and `\` only. */
module Json {
  import opened Results
  import opened StringOrder

  datatype Json = JStr(s: string) | JArr(items: seq<Json>) | JObj(members: seq<Member>)

  datatype Member = Member(key: string, value: Json)

  /** Four spaces per nesting level. */
  function Indent(level: nat): (r: string)
    ensures |r| == 4 * level
  {
    if level == 0 then "" else Indent(level - 1) + "    "
  }

  function EscapeChar(c: char): string {
    if c == '"' then "\\\"" else if c == '\\' then "\\\\" else [c]
  }

  function Escape(s: string): string {
    if s == [] then "" else EscapeChar(s[0]) + Escape(s[1..])
  }

  function Quote(s: string): string {
    "\"" + Escape(s) + "\""
  }

  /** The text of `j` when it starts at nesting `level`. Empty containers
      print as `[]` and `{}`; others put one element per line. */
  function Print(j: Json, level: nat): string
    decreases j
  {
    match j
    case JStr(s) => Quote(s)
    case JArr(xs) =>
      if xs == [] then "[]" else "[\n" + PrintItems(xs, level + 1) + "\n" + Indent(level) + "]"
    case JObj(ms) =>
      if ms == [] then "{}" else "{\n" + PrintMembers(ms, level + 1) + "\n" + Indent(level) + "}"
  }

  function PrintItems(xs: seq<Json>, level: nat): string
    requires xs != []
    decreases xs
  {
    Indent(level) + Print(xs[0], level) + (if |xs| == 1 then "" else ",\n" + PrintItems(xs[1..], level))
  }

  function PrintMembers(ms: seq<Member>, level: nat): string
    requires ms != []
    decreases ms
  {
    Indent(level) + Quote(ms[0].key) + ": " + Print(ms[0].value, level)
    + (if |ms| == 1 then "" else ",\n" + PrintMembers(ms[1..], level))
  }

  /** The whole document. */
  function Serialize(j: Json): string {
    Print(j, 0)
  }

  /** Reads the characters of a quoted string up to its closing quote. */
  function ReadChars(t: string): (r: Option<(string, string)>)
    ensures r.Some? ==> |r.value.1| < |t|
    decreases |t|
  {
    if |t| == 0 then None
    else if t[0] == '"' then Some(("", t[1..]))
    else if t[0] == '\\' then
      if |t| >= 2 && (t[1] == '"' || t[1] == '\\') then
        match ReadChars(t[2..])
        case None => None
        case Some((s, rest)) => Some(([t[1]] + s, rest))
      else None
    else
      match ReadChars(t[1..])
      case None => None
      case Some((s, rest)) => Some(([t[0]] + s, rest))
  }

  /** Reads one value printed at `level` from the front of `t`, returning it
      with the text that follows. */
  function ReadValue(t: string, level: nat): (r: Option<(Json, string)>)
    ensures r.Some? ==> |r.value.1| < |t|
    decreases |t|, 2
  {
    if |t| == 0 then None
    else if t[0] == '"' then
      match ReadChars(t[1..])
      case None => None
      case Some((s, rest)) => Some((JStr(s), rest))
    else if t[0] == '[' then ReadArray(t, level)
    else if t[0] == '{' then ReadObject(t, level)
    else None
  }

  function ReadArray(t: string, level: nat): (r: Option<(Json, string)>)
    requires |t| > 0
    ensures r.Some? ==> |r.value.1| < |t|
    decreases |t|, 1
  {
    if |t| >= 2 && t[1] == ']' then Some((JArr([]), t[2..]))
    else if |t| >= 2 && t[1] == '\n' then
      match ReadItems(t[2..], level + 1)
      case None => None
      case Some((xs, rest)) =>
        var close := "\n" + Indent(level) + "]";
        if IsPrefix(close, rest) then Some((JArr(xs), rest[|close|..])) else None
    else None
  }

  function ReadObject(t: string, level: nat): (r: Option<(Json, string)>)
    requires |t| > 0
    ensures r.Some? ==> |r.value.1| < |t|
    decreases |t|, 1
  {
    if |t| >= 2 && t[1] == '}' then Some((JObj([]), t[2..]))
    else if |t| >= 2 && t[1] == '\n' then
      match ReadMembers(t[2..], level + 1)
      case None => None
      case Some((ms, rest)) =>
        var close := "\n" + Indent(level) + "}";
        if IsPrefix(close, rest) then Some((JObj(ms), rest[|close|..])) else None
    else None
  }

  /** Reads one or more indented values separated by `,` and a newline. */
  function ReadItems(t: string, level: nat): (r: Option<(seq<Json>, string)>)
    ensures r.Some? ==> |r.value.1| < |t| && r.value.0 != []
    decreases |t|, 3
  {
    var ind := Indent(level);
    if !IsPrefix(ind, t) then None
    else
      match ReadValue(t[|ind|..], level)
      case None => None
      case Some((x, rest)) =>
        if IsPrefix(",\n", rest) then
          match ReadItems(rest[2..], level)
          case None => None
          case Some((xs, rest')) => Some(([x] + xs, rest'))
        else Some(([x], rest))
  }

  /** Reads one indented `"key": value` member. */
  function ReadMember(t: string, level: nat): (r: Option<(Member, string)>)
    ensures r.Some? ==> |r.value.1| < |t|
    decreases |t|, 3
  {
    var ind := Indent(level);
    if !IsPrefix(ind, t) || |t| == |ind| || t[|ind|] != '"' then None
    else
      match ReadChars(t[|ind| + 1..])
      case None => None
      case Some((k, afterKey)) =>
        if !IsPrefix(": ", afterKey) then None
        else
          match ReadValue(afterKey[2..], level)
          case None => None
          case Some((v, rest)) => Some((Member(k, v), rest))
  }

  /** Reads one or more members separated by `,` and a newline. */
  function ReadMembers(t: string, level: nat): (r: Option<(seq<Member>, string)>)
    ensures r.Some? ==> |r.value.1| < |t| && r.value.0 != []
    decreases |t|, 4
  {
    match ReadMember(t, level)
    case None => None
    case Some((m, rest)) =>
      if IsPrefix(",\n", rest) then
        match ReadMembers(rest[2..], level)
        case None => None
        case Some((ms, rest')) => Some(([m] + ms, rest'))
      else Some(([m], rest))
  }

  /** Reads a whole document. */
  function Deserialize(t: string): Option<Json> {
    match ReadValue(t, 0)
    case Some((j, rest)) => if rest == [] then Some(j) else None
    case None => None
  }

  lemma {:induction false} ReadEscaped(s: string, rest: string)
    ensures ReadChars(Escape(s) + "\"" + rest) == Some((s, rest))
    decreases |s|
  {
    if s == [] {
      assert Escape(s) + "\"" + rest == "\"" + rest;
    } else {
      ReadEscaped(s[1..], rest);
      var t := Escape(s) + "\"" + rest;
      var tail := Escape(s[1..]) + "\"" + rest;
      assert t == EscapeChar(s[0]) + tail;
      if s[0] == '"' || s[0] == '\\' {
        assert t[2..] == tail;
      } else {
        assert t[1..] == tail;
      }
      assert [s[0]] + s[1..] == s;
    }
  }

  lemma ReadQuoted(s: string, rest: string)
    ensures ReadValue(Quote(s) + rest, 0) == Some((JStr(s), rest))
    ensures ReadChars((Quote(s) + rest)[1..]) == Some((s, rest))
  {
    assert (Quote(s) + rest)[1..] == Escape(s) + "\"" + rest;
    ReadEscaped(s, rest);
  }

  /** `p` followed by `x` starts with `p`, and what follows `p` is `x`. */
  lemma Split(p: string, x: string)
    ensures IsPrefix(p, p + x) && (p + x)[|p|..] == x
  {
    assert (p + x)[..|p|] == p;
  }

  /** One step of `ReadArray` on a non-empty array, with the text abstracted. */
  lemma ReadArrayStep(t: string, level: nat, xs: seq<Json>, rest: string)
    requires |t| >= 2 && t[1] == '\n'
    requires ReadItems(t[2..], level + 1) == Some((xs, "\n" + Indent(level) + "]" + rest))
    ensures ReadArray(t, level) == Some((JArr(xs), rest))
  {
    Split("\n" + Indent(level) + "]", rest);
  }

  lemma ReadObjectStep(t: string, level: nat, ms: seq<Member>, rest: string)
    requires |t| >= 2 && t[1] == '\n'
    requires ReadMembers(t[2..], level + 1) == Some((ms, "\n" + Indent(level) + "}" + rest))
    ensures ReadObject(t, level) == Some((JObj(ms), rest))
  {
    Split("\n" + Indent(level) + "}", rest);
  }

  /** `ReadItems` on an indented value followed by text that does not
      continue the list. */
  lemma ReadItemsLast(ind: string, u: string, level: nat, x: Json, rest: string)
    requires ind == Indent(level)
    requires ReadValue(u, level) == Some((x, rest))
    requires |rest| == 0 || rest[0] != ','
    ensures ReadItems(ind + u, level) == Some(([x], rest))
  {
    Split(ind, u);
  }

  /** `ReadItems` on an indented value followed by `,`, a newline and more items. */
  lemma ReadItemsMore(ind: string, u: string, level: nat, x: Json, tail: string, xs: seq<Json>, rest: string)
    requires ind == Indent(level)
    requires ReadValue(u, level) == Some((x, ",\n" + tail))
    requires ReadItems(tail, level) == Some((xs, rest))
    ensures ReadItems(ind + u, level) == Some(([x] + xs, rest))
  {
    Split(ind, u);
    Split(",\n", tail);
  }

  /** `ReadMember` on an indented quoted key, `: ` and a value. */
  lemma ReadMemberStep(ind: string, key: string, u: string, level: nat, v: Json, rest: string)
    requires ind == Indent(level)
    requires ReadValue(u, level) == Some((v, rest))
    ensures ReadMember(ind + (Quote(key) + (": " + u)), level) == Some((Member(key, v), rest))
  {
    var t := ind + (Quote(key) + (": " + u));
    Split(ind, Quote(key) + (": " + u));
    ReadQuoted(key, ": " + u);
    assert t[|ind| + 1..] == (Quote(key) + (": " + u))[1..];
    Split(": ", u);
  }

  lemma ReadMembersLast(t: string, level: nat, m: Member, rest: string)
    requires ReadMember(t, level) == Some((m, rest))
    requires |rest| == 0 || rest[0] != ','
    ensures ReadMembers(t, level) == Some(([m], rest))
  {
  }

  lemma ReadMembersMore(t: string, level: nat, m: Member, tail: string, ms: seq<Member>, rest: string)
    requires ReadMember(t, level) == Some((m, ",\n" + tail))
    requires ReadMembers(tail, level) == Some((ms, rest))
    ensures ReadMembers(t, level) == Some(([m] + ms, rest))
  {
    Split(",\n", tail);
  }

  /** How the printed text of each kind of value decomposes. */
  lemma ArrayText(xs: seq<Json>, level: nat, rest: string)
    requires xs != []
    ensures Print(JArr(xs), level) + rest
         == "[\n" + (PrintItems(xs, level + 1) + ("\n" + Indent(level) + "]" + rest))
  {
    Split6("[\n", PrintItems(xs, level + 1), "\n", Indent(level), "]", rest);
  }

  lemma ObjectText(ms: seq<Member>, level: nat, rest: string)
    requires ms != []
    ensures Print(JObj(ms), level) + rest
         == "{\n" + (PrintMembers(ms, level + 1) + ("\n" + Indent(level) + "}" + rest))
  {
    Split6("{\n", PrintMembers(ms, level + 1), "\n", Indent(level), "}", rest);
  }

  lemma Split6(a: string, b: string, c: string, d: string, e: string, f: string)
    ensures a + b + c + d + e + f == a + (b + (c + d + e + f))
  {
  }

  lemma ItemsText(xs: seq<Json>, level: nat, rest: string)
    requires xs != []
    ensures |xs| == 1 ==> (PrintItems(xs, level) + rest == Indent(level) + (Print(xs[0], level) + rest))
    ensures |xs| > 1 ==>
      (PrintItems(xs, level) + rest
         == Indent(level) + (Print(xs[0], level) + (",\n" + (PrintItems(xs[1..], level) + rest))))
  {
  }

  lemma MembersText(ms: seq<Member>, level: nat, rest: string)
    requires ms != []
    ensures |ms| == 1 ==>
      (PrintMembers(ms, level) + rest
         == Indent(level) + (Quote(ms[0].key) + (": " + (Print(ms[0].value, level) + rest))))
    ensures |ms| > 1 ==>
      (PrintMembers(ms, level) + rest
         == Indent(level) + (Quote(ms[0].key) + (": " + (Print(ms[0].value, level)
              + (",\n" + (PrintMembers(ms[1..], level) + rest))))))
  {
    var ind, q, v := Indent(level), Quote(ms[0].key), Print(ms[0].value, level);
    if |ms| == 1 {
      assert PrintMembers(ms, level) == ind + q + ": " + v;
      Regroup(ind, q, ": ", v, rest);
    } else {
      var tail := PrintMembers(ms[1..], level);
      assert PrintMembers(ms, level) == ind + q + ": " + v + (",\n" + tail);
      Regroup(ind, q, ": ", v, (",\n" + tail) + rest);
      Assoc(ind + q + ": " + v, ",\n" + tail, rest);
      Assoc(",\n", tail, rest);
    }
  }

  lemma Regroup(a: string, b: string, c: string, d: string, e: string)
    ensures a + b + c + d + e == a + (b + (c + (d + e)))
  {
  }

  lemma Assoc(a: string, b: string, c: string)
    ensures (a + b) + c == a + (b + c)
  {
  }

  /** Reading what was printed gives the value back, whatever follows it. */
  lemma {:induction false} ReadPrint(j: Json, level: nat, rest: string)
    ensures ReadValue(Print(j, level) + rest, level) == Some((j, rest))
    decreases j, 1
  {
    match j
    case JStr(s) =>
      ReadQuoted(s, rest);
    case JArr(xs) =>
      ReadPrintArray(xs, level, rest);
    case JObj(ms) =>
      ReadPrintObject(ms, level, rest);
  }

  lemma {:induction false} ReadPrintArray(xs: seq<Json>, level: nat, rest: string)
    ensures ReadArray(Print(JArr(xs), level) + rest, level) == Some((JArr(xs), rest))
    decreases JArr(xs), 0
  {
    if xs != [] {
      var close := "\n" + Indent(level) + "]" + rest;
      ArrayText(xs, level, rest);
      Split("[\n", PrintItems(xs, level + 1) + close);
      ReadPrintItems(xs, level + 1, close);
      ReadArrayStep(Print(JArr(xs), level) + rest, level, xs, rest);
    } else {
      assert Print(JArr(xs), level) + rest == "[]" + rest;
    }
  }

  lemma {:induction false} ReadPrintObject(ms: seq<Member>, level: nat, rest: string)
    ensures ReadObject(Print(JObj(ms), level) + rest, level) == Some((JObj(ms), rest))
    decreases JObj(ms), 0
  {
    if ms != [] {
      var close := "\n" + Indent(level) + "}" + rest;
      ObjectText(ms, level, rest);
      Split("{\n", PrintMembers(ms, level + 1) + close);
      ReadPrintMembers(ms, level + 1, close);
      ReadObjectStep(Print(JObj(ms), level) + rest, level, ms, rest);
    } else {
      assert Print(JObj(ms), level) + rest == "{}" + rest;
    }
  }

  lemma {:induction false} ReadPrintItems(xs: seq<Json>, level: nat, rest: string)
    requires xs != []
    requires |rest| == 0 || rest[0] != ','
    ensures ReadItems(PrintItems(xs, level) + rest, level) == Some((xs, rest))
    decreases xs
  {
    var ind := Indent(level);
    ItemsText(xs, level, rest);
    if |xs| == 1 {
      ReadPrint(xs[0], level, rest);
      ReadItemsLast(ind, Print(xs[0], level) + rest, level, xs[0], rest);
      assert [xs[0]] == xs;
    } else {
      var tail := PrintItems(xs[1..], level) + rest;
      ReadPrint(xs[0], level, ",\n" + tail);
      ReadPrintItems(xs[1..], level, rest);
      ReadItemsMore(ind, Print(xs[0], level) + (",\n" + tail), level, xs[0], tail, xs[1..], rest);
      assert [xs[0]] + xs[1..] == xs;
    }
  }

  lemma {:induction false} ReadPrintMembers(ms: seq<Member>, level: nat, rest: string)
    requires ms != []
    requires |rest| == 0 || rest[0] != ','
    ensures ReadMembers(PrintMembers(ms, level) + rest, level) == Some((ms, rest))
    decreases ms
  {
    var m := ms[0];
    var ind := Indent(level);
    var t := PrintMembers(ms, level) + rest;
    MembersText(ms, level, rest);
    if |ms| == 1 {
      ReadPrint(m.value, level, rest);
      ReadMemberStep(ind, m.key, Print(m.value, level) + rest, level, m.value, rest);
      ReadMembersLast(t, level, m, rest);
      assert [m] == ms;
    } else {
      var tail := PrintMembers(ms[1..], level) + rest;
      ReadPrint(m.value, level, ",\n" + tail);
      ReadMemberStep(ind, m.key, Print(m.value, level) + (",\n" + tail), level, m.value, ",\n" + tail);
      ReadPrintMembers(ms[1..], level, rest);
      ReadMembersMore(t, level, m, tail, ms[1..], rest);
      assert [ms[0]] + ms[1..] == ms;
    }
  }

  /** Serialisation is injective: the document reads back as the value. */
  lemma SerializeRoundTrip(j: Json)
    ensures Deserialize(Serialize(j)) == Some(j)
  {
    ReadPrint(j, 0, "");
    assert Print(j, 0) + "" == Print(j, 0);
  }
}
