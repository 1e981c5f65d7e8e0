// The canonical form that event signatures cover: objects printed with sorted keys,
// no white space, `/` and non-ASCII characters left as they are.
module CanonicalJson {
  import opened Text
  import opened Sorting

  // A JSON value as serde_json holds it. Object members keep the order they arrived in;
  // a number is the token it prints as.
  datatype Json =
    | Null
    | Bool(b: bool)
    | Number(token: string)
    | Str(text: string)
    | Arr(items: seq<Json>)
    | Obj(members: seq<Member>)

  datatype Member = Member(key: string, value: Json)

  predicate NumberChar(c: char) {
    '0' <= c <= '9' || c == '+' || c == '-' || c == '.' || c == 'e' || c == 'E'
  }

  function Keys(ms: seq<Member>): (ks: seq<string>)
    ensures |ks| == |ms| && forall i :: 0 <= i < |ms| ==> ks[i] == ms[i].key
  {
    seq(|ms|, i requires 0 <= i < |ms| => ms[i].key)
  }

  // What serde_json guarantees of a parsed value: number tokens are made of number
  // characters and no object repeats a key.
  ghost predicate WellFormed(v: Json) {
    match v
    case Number(t) => t != "" && forall i :: 0 <= i < |t| ==> NumberChar(t[i])
    case Arr(items) => forall i :: 0 <= i < |items| ==> WellFormed(items[i])
    case Obj(ms) => Distinct(Keys(ms)) && forall i :: 0 <= i < |ms| ==> WellFormed(ms[i].value)
    case _ => true
  }

  // Index of the first member named `k`, looking from position `n` on.
  function FindFrom(ms: seq<Member>, k: string, n: nat): (i: nat)
    requires n <= |ms| && exists j :: n <= j < |ms| && ms[j].key == k
    ensures i < |ms| && ms[i].key == k
    decreases |ms| - n
  {
    if ms[n].key == k then n else FindFrom(ms, k, n + 1)
  }

  function Find(ms: seq<Member>, k: string): (i: nat)
    requires k in Keys(ms)
    ensures i < |ms| && ms[i].key == k
  {
    assert exists j :: 0 <= j < |ms| && ms[j].key == k by {
      var j :| 0 <= j < |ms| && Keys(ms)[j] == k;
      assert ms[j].key == k;
    }
    FindFrom(ms, k, 0)
  }

  lemma FindUnique(ms: seq<Member>, i: nat)
    requires Distinct(Keys(ms)) && i < |ms|
    ensures ms[i].key in Keys(ms) && Find(ms, ms[i].key) == i
  {
    var ks := Keys(ms);
    assert ks[i] == ms[i].key;
    var j := Find(ms, ms[i].key);
    assert ks[j] == ks[i];
  }

  function HexDigit(d: nat): (c: char)
    requires d < 16
  {
    if d < 10 then DigitChar(d) else ('a' as int + d - 10) as char
  }

  // serde_json's escapes inside a string literal (section 7 of RFC 8259).
  function Escape(c: char): string {
    if c == '"' then "\\\""
    else if c == '\\' then "\\\\"
    else if c as int == 8 then "\\b"
    else if c as int == 9 then "\\t"
    else if c as int == 10 then "\\n"
    else if c as int == 12 then "\\f"
    else if c as int == 13 then "\\r"
    else if (c as int) < 0x20 then "\\u00" + [HexDigit(c as int / 16), HexDigit(c as int % 16)]
    else [c]
  }

  function EscapeAll(t: string): string {
    if t == "" then "" else Escape(t[0]) + EscapeAll(t[1..])
  }

  function Quote(t: string): string {
    "\"" + (EscapeAll(t) + "\"")
  }

  function Join(parts: seq<string>): string {
    if parts == [] then "" else if |parts| == 1 then parts[0] else parts[0] + "," + Join(parts[1..])
  }

  function SortedKeys(ms: seq<Member>): (ks: seq<string>)
    ensures forall k :: k in ks <==> k in Keys(ms)
  {
    SortPermutes(Keys(ms), Leq);
    SameMembers(Sort(Keys(ms), Leq), Keys(ms));
    Sort(Keys(ms), Leq)
  }

  function Canonical(v: Json): string
    decreases v
  {
    match v
    case Null => "null"
    case Bool(b) => if b then "true" else "false"
    case Number(t) => t
    case Str(t) => Quote(t)
    case Arr(items) => "[" + Join(ItemTexts(v, 0)) + "]"
    case Obj(ms) => "{" + Join(MemberTexts(v, SortedKeys(ms))) + "}"
  }

  function ItemTexts(v: Json, i: nat): (ts: seq<string>)
    requires v.Arr? && i <= |v.items|
    ensures |ts| == |v.items| - i
    ensures forall j :: 0 <= j < |ts| ==> ts[j] == Canonical(v.items[i + j])
    decreases v, |v.items| - i
  {
    if i == |v.items| then [] else [Canonical(v.items[i])] + ItemTexts(v, i + 1)
  }

  function MemberTexts(v: Json, ks: seq<string>): (ts: seq<string>)
    requires v.Obj? && forall k :: k in ks ==> k in Keys(v.members)
    ensures |ts| == |ks|
    ensures forall j :: 0 <= j < |ts| ==>
              ts[j] == Quote(ks[j]) + (":" + Canonical(v.members[Find(v.members, ks[j])].value))
    decreases v, |ks|
  {
    if ks == [] then []
    else
      [Quote(ks[0]) + (":" + Canonical(v.members[Find(v.members, ks[0])].value))] + MemberTexts(v, ks[1..])
  }

  // The value with every object's members in key order.
  ghost function Normal(v: Json): Json
    decreases v
  {
    match v
    case Arr(items) => Arr(NormalItems(v, 0))
    case Obj(ms) => Obj(NormalMembers(v, SortedKeys(ms)))
    case _ => v
  }

  ghost function NormalItems(v: Json, i: nat): (ns: seq<Json>)
    requires v.Arr? && i <= |v.items|
    ensures |ns| == |v.items| - i
    ensures forall j :: 0 <= j < |ns| ==> ns[j] == Normal(v.items[i + j])
    decreases v, |v.items| - i
  {
    if i == |v.items| then [] else [Normal(v.items[i])] + NormalItems(v, i + 1)
  }

  ghost function NormalMembers(v: Json, ks: seq<string>): (ns: seq<Member>)
    requires v.Obj? && forall k :: k in ks ==> k in Keys(v.members)
    ensures |ns| == |ks|
    ensures forall j :: 0 <= j < |ns| ==> ns[j] == Member(ks[j], Normal(v.members[Find(v.members, ks[j])].value))
    decreases v, |ks|
  {
    if ks == [] then []
    else [Member(ks[0], Normal(v.members[Find(v.members, ks[0])].value))] + NormalMembers(v, ks[1..])
  }

  // Equal up to the order of object members, at every depth.
  ghost predicate Same(v: Json, w: Json)
    decreases v
  {
    match v
    case Arr(items) =>
      w.Arr? && |items| == |w.items| && forall i :: 0 <= i < |items| ==> Same(items[i], w.items[i])
    case Obj(ms) =>
      && w.Obj?
      && (forall k :: k in Keys(ms) <==> k in Keys(w.members))
      && (forall i :: 0 <= i < |ms| ==>
            && ms[i].key in Keys(w.members)
            && Same(ms[i].value, w.members[Find(w.members, ms[i].key)].value))
    case _ => v == w
  }
}

// A reader for canonical text, and the proof that it inverts the writer.
module CanonicalJsonReader {
  import opened Text
  import opened Sorting
  import opened TextSorting
  import opened CanonicalJson

  datatype Parsed<+T> = Fail | Got(value: T, rest: string)

  function HexValue(c: char): (d: int) {
    if '0' <= c <= '9' then c as int - '0' as int
    else if 'a' <= c <= 'f' then c as int - 'a' as int + 10
    else -1
  }

  // One character of a string literal, plain or escaped.
  function ParseChar(s: string): (p: Parsed<char>)
    requires s != ""
    ensures p.Got? ==> |p.rest| < |s|
  {
    if s[0] != '\\' then Got(s[0], s[1..])
    else if |s| < 2 then Fail
    else if s[1] == '"' || s[1] == '\\' then Got(s[1], s[2..])
    else if s[1] == 'b' then Got(8 as char, s[2..])
    else if s[1] == 't' then Got(9 as char, s[2..])
    else if s[1] == 'n' then Got(10 as char, s[2..])
    else if s[1] == 'f' then Got(12 as char, s[2..])
    else if s[1] == 'r' then Got(13 as char, s[2..])
    else if |s| >= 6 && s[..4] == "\\u00" && 0 <= HexValue(s[4]) < 8 && 0 <= HexValue(s[5]) then
      Got((16 * HexValue(s[4]) + HexValue(s[5])) as char, s[6..])
    else Fail
  }

  // The body of a string literal, up to and including the closing quote.
  function ParseText(s: string): (p: Parsed<string>)
    ensures p.Got? ==> |p.rest| < |s|
  {
    if s == "" then Fail
    else if s[0] == '"' then Got("", s[1..])
    else
      var c := ParseChar(s);
      if c.Fail? then Fail
      else
        var more := ParseText(c.rest);
        if more.Got? then Got([c.value] + more.value, more.rest) else Fail
  }

  // The longest prefix made of number characters.
  function ParseNumber(s: string): (p: Parsed<string>)
    ensures p.Got? && |p.rest| <= |s|
    ensures s != "" && NumberChar(s[0]) ==> |p.rest| < |s|
  {
    if s == "" || !NumberChar(s[0]) then Got("", s)
    else var p := ParseNumber(s[1..]); Got([s[0]] + p.value, p.rest)
  }

  function ParseValue(s: string): (p: Parsed<Json>)
    ensures p.Got? ==> |p.rest| < |s|
    decreases |s|, 0
  {
    if s == "" then Fail
    else if NumberChar(s[0]) then var n := ParseNumber(s); Got(Number(n.value), n.rest)
    else if "null" <= s then Got(Null, s[4..])
    else if "true" <= s then Got(Bool(true), s[4..])
    else if "false" <= s then Got(Bool(false), s[5..])
    else if s[0] == '"' then
      var t := ParseText(s[1..]);
      if t.Got? then Got(Str(t.value), t.rest) else Fail
    else if s[0] == '[' then
      if |s| > 1 && s[1] == ']' then Got(Arr([]), s[2..])
      else
        var items := ParseItems(s[1..]);
        if items.Got? then Got(Arr(items.value), items.rest) else Fail
    else if s[0] == '{' then
      if |s| > 1 && s[1] == '}' then Got(Obj([]), s[2..])
      else
        var ms := ParseMembers(s[1..]);
        if ms.Got? then Got(Obj(ms.value), ms.rest) else Fail
    else Fail
  }

  // One or more comma-separated values and the closing bracket.
  function ParseItems(s: string): (p: Parsed<seq<Json>>)
    ensures p.Got? ==> |p.rest| < |s|
    decreases |s|, 1
  {
    var v := ParseValue(s);
    if v.Fail? || v.rest == "" then Fail
    else if v.rest[0] == ']' then Got([v.value], v.rest[1..])
    else if v.rest[0] == ',' then
      var more := ParseItems(v.rest[1..]);
      if more.Got? then Got([v.value] + more.value, more.rest) else Fail
    else Fail
  }

  // One or more comma-separated members and the closing brace.
  function ParseMembers(s: string): (p: Parsed<seq<Member>>)
    ensures p.Got? ==> |p.rest| < |s|
    decreases |s|, 1
  {
    if s == "" || s[0] != '"' then Fail
    else
      var k := ParseText(s[1..]);
      if k.Fail? || k.rest == "" || k.rest[0] != ':' then Fail
      else
        var v := ParseValue(k.rest[1..]);
        if v.Fail? || v.rest == "" then Fail
        else if v.rest[0] == '}' then Got([Member(k.value, v.value)], v.rest[1..])
        else if v.rest[0] == ',' then
          var more := ParseMembers(v.rest[1..]);
          if more.Got? then Got([Member(k.value, v.value)] + more.value, more.rest) else Fail
        else Fail
  }

  // ---- The reader inverts the writer ----

  lemma ReadEscape(c: char, rest: string)
    ensures ParseChar(Escape(c) + rest) == Got(c, rest)
    ensures (Escape(c) + rest)[0] != '"'
  {
    var s := Escape(c) + rest;
    if |Escape(c)| == 1 {
      assert s[1..] == rest;
    } else if |Escape(c)| == 2 {
      assert s[2..] == rest;
    } else {
      assert s[..4] == "\\u00" && s[6..] == rest;
      assert s[4] == HexDigit(c as int / 16) && s[5] == HexDigit(c as int % 16);
      assert HexValue(s[4]) == c as int / 16 && HexValue(s[5]) == c as int % 16;
    }
  }

  lemma {:induction false} ReadText(t: string, rest: string)
    ensures ParseText(EscapeAll(t) + "\"" + rest) == Got(t, rest)
  {
    var s := EscapeAll(t) + "\"" + rest;
    if t == "" {
      assert s[1..] == rest;
    } else {
      var after := EscapeAll(t[1..]) + "\"" + rest;
      ReadText(t[1..], rest);
      ReadEscape(t[0], after);
      Regroup(Escape(t[0]), EscapeAll(t[1..]), "\"");
      Regroup(Escape(t[0]), EscapeAll(t[1..]) + "\"", rest);
      assert [t[0]] + t[1..] == t;
    }
  }

  ghost predicate Delimited(rest: string) {
    rest == "" || !NumberChar(rest[0])
  }

  lemma {:induction false} ReadNumber(t: string, rest: string)
    requires Delimited(rest) && forall i :: 0 <= i < |t| ==> NumberChar(t[i])
    ensures ParseNumber(t + rest) == Got(t, rest)
  {
    if t == "" {
      assert t + rest == rest;
    } else {
      ReadNumber(t[1..], rest);
      assert (t + rest)[1..] == t[1..] + rest && [t[0]] + t[1..] == t;
    }
  }

  lemma ReadQuoted(t: string, rest: string)
    ensures Quote(t) + rest != "" && (Quote(t) + rest)[0] == '"'
    ensures ParseText((Quote(t) + rest)[1..]) == Got(t, rest)
  {
    ReadText(t, rest);
    Regroup("\"", EscapeAll(t) + "\"", rest);
    Regroup("\"", EscapeAll(t) + "\"" + rest, "");
  }

  lemma ReadWord(v: Json, rest: string)
    requires v.Null? || v.Bool?
    ensures ParseValue(Canonical(v) + rest) == Got(v, rest)
  {
    Regroup(Canonical(v), rest, "");
    assert Canonical(v) <= Canonical(v) + rest;
  }

  lemma ReadToken(t: string, rest: string)
    requires WellFormed(Number(t)) && Delimited(rest)
    ensures ParseValue(t + rest) == Got(Number(t), rest)
  {
    ReadNumber(t, rest);
  }

  lemma ReadString(t: string, rest: string)
    ensures ParseValue(Quote(t) + rest) == Got(Str(t), rest)
  {
    ReadQuoted(t, rest);
  }

  lemma ReadEmpty(rest: string)
    ensures ParseValue("[" + "]" + rest) == Got(Arr([]), rest)
    ensures ParseValue("{" + "}" + rest) == Got(Obj([]), rest)
  {
    assert ("[" + "]" + rest)[2..] == rest && ("{" + "}" + rest)[2..] == rest;
  }

  lemma ReadBrackets(body: string, items: seq<Json>, rest: string)
    requires body != "" && body[0] != ']' && ParseItems(body) == Got(items, rest)
    ensures ParseValue("[" + body) == Got(Arr(items), rest)
  {
    assert ("[" + body)[1..] == body;
  }

  lemma ReadBraces(body: string, ms: seq<Member>, rest: string)
    requires body != "" && body[0] != '}' && ParseMembers(body) == Got(ms, rest)
    ensures ParseValue("{" + body) == Got(Obj(ms), rest)
  {
    assert ("{" + body)[1..] == body;
  }

  lemma {:induction false} ReadArray(v: Json, rest: string)
    requires v.Arr? && v.items != [] && WellFormed(v)
    ensures ParseValue(Canonical(v) + rest) == Got(Normal(v), rest)
    decreases v, |v.items| + 1
  {
    var texts := Join(ItemTexts(v, 0));
    ReadItems(v, 0, texts + "]" + rest, rest);
    FirstChar(v, 0);
    ReadBrackets(texts + "]" + rest, NormalItems(v, 0), rest);
    Regroup("[", texts, "]");
    Regroup("[", texts + "]", rest);
  }

  lemma {:induction false} ReadObject(v: Json, rest: string)
    requires v.Obj? && v.members != [] && WellFormed(v)
    ensures ParseValue(Canonical(v) + rest) == Got(Normal(v), rest)
    decreases v, |v.members| + 1
  {
    SortPermutes(Keys(v.members), Leq);
    var ks := SortedKeys(v.members);
    var texts := Join(MemberTexts(v, ks));
    ReadMembers(v, ks, texts + "}" + rest, rest);
    assert texts[0] == '"';
    ReadBraces(texts + "}" + rest, NormalMembers(v, ks), rest);
    Regroup("{", texts, "}");
    Regroup("{", texts + "}", rest);
  }

  lemma ReadNothing(v: Json, rest: string)
    requires v == Arr([]) || v == Obj([])
    ensures ParseValue(Canonical(v) + rest) == Got(Normal(v), rest)
  {
    SortPermutes(Keys([]), Leq);
    ReadEmpty(rest);
  }

  // Reading back a canonical text yields the value in key order and stops at its end.
  lemma {:induction false} ReadCanonical(v: Json, rest: string)
    requires WellFormed(v) && Delimited(rest)
    ensures ParseValue(Canonical(v) + rest) == Got(Normal(v), rest)
    decreases v
  {
    match v
    case Arr(items) =>
      if items == [] {
        ReadNothing(v, rest);
      } else {
        ReadArray(v, rest);
      }
    case Obj(ms) =>
      if ms == [] {
        ReadNothing(v, rest);
      } else {
        ReadObject(v, rest);
      }
    case Number(t) => ReadToken(t, rest);
    case Str(t) => ReadString(t, rest);
    case _ => ReadWord(v, rest);
  }

  // No value's text starts with a closing bracket.
  lemma FirstChar(v: Json, i: nat)
    requires v.Arr? && i < |v.items| && WellFormed(v)
    ensures Join(ItemTexts(v, i)) != "" && Join(ItemTexts(v, i))[0] != ']'
  {
    var t := Canonical(v.items[i]);
    assert WellFormed(v.items[i]);
    assert t != "" && t[0] != ']';
    assert ItemTexts(v, i)[0] == t;
  }

  // One step of the readers for the inside of brackets and braces.
  lemma ItemStep(s: string, v: Json, after: string, vs: seq<Json>, rest: string)
    requires ParseValue(s) == Got(v, after) && after != ""
    requires if vs == [] then after[0] == ']' && after[1..] == rest
             else after[0] == ',' && ParseItems(after[1..]) == Got(vs, rest)
    ensures ParseItems(s) == Got([v] + vs, rest)
  {
    assert vs == [] ==> [v] + vs == [v];
  }

  lemma MemberStep(s: string, k: string, text: string, v: Json, after: string, ms: seq<Member>, rest: string)
    requires s == Quote(k) + (":" + text)
    requires ParseValue(text) == Got(v, after) && after != ""
    requires if ms == [] then after[0] == '}' && after[1..] == rest
             else after[0] == ',' && ParseMembers(after[1..]) == Got(ms, rest)
    ensures ParseMembers(s) == Got([Member(k, v)] + ms, rest)
  {
    ReadQuoted(k, ":" + text);
    Regroup(":", text, "");
    assert ms == [] ==> [Member(k, v)] + ms == [Member(k, v)];
  }

  // What follows the element at the head of a list whose remaining texts are `more`.
  function Continuation(more: seq<string>, close: string, rest: string): string {
    if more == [] then close + rest else "," + (Join(more) + close + rest)
  }

  lemma JoinSplits(ts: seq<string>, close: string, rest: string)
    requires ts != [] && close != ""
    ensures Join(ts) + close + rest == ts[0] + Continuation(ts[1..], close, rest)
    ensures Continuation(ts[1..], close, rest) != ""
    ensures Continuation(ts[1..], close, rest)[0] == if |ts| == 1 then close[0] else ','
    ensures |ts| > 1 ==> Continuation(ts[1..], close, rest)[1..] == Join(ts[1..]) + close + rest
    ensures |ts| == 1 && |close| == 1 ==> Continuation(ts[1..], close, rest)[1..] == rest
  {
    if |ts| == 1 {
      Regroup(ts[0], close, rest);
      assert (close + rest)[0] == close[0];
      if |close| == 1 {
        Regroup(close, rest, "");
      }
    } else {
      var more := Join(ts[1..]);
      Regroup(ts[0] + ",", more, close);
      Regroup(ts[0] + ",", more + close, rest);
      Regroup(ts[0], ",", more + close + rest);
      Regroup(",", more + close + rest, "");
    }
  }

  lemma ConsParts<T>(x: T, xs: seq<T>)
    ensures ([x] + xs)[0] == x && ([x] + xs)[1..] == xs
  {
  }

  lemma {:induction false} ReadItems(v: Json, i: nat, s: string, rest: string)
    requires v.Arr? && i < |v.items| && WellFormed(v)
    requires s == Join(ItemTexts(v, i)) + "]" + rest
    ensures ParseItems(s) == Got(NormalItems(v, i), rest)
    decreases v, |v.items| - i
  {
    var more := ItemTexts(v, i + 1);
    var after := Continuation(more, "]", rest);
    ConsParts(Canonical(v.items[i]), more);
    JoinSplits(ItemTexts(v, i), "]", rest);
    ReadCanonical(v.items[i], after);
    if i + 1 < |v.items| {
      ReadItems(v, i + 1, after[1..], rest);
    }
    ItemStep(s, Normal(v.items[i]), after, NormalItems(v, i + 1), rest);
  }

  lemma {:induction false} ReadMembers(v: Json, ks: seq<string>, s: string, rest: string)
    requires v.Obj? && WellFormed(v) && ks != [] && forall k :: k in ks ==> k in Keys(v.members)
    requires s == Join(MemberTexts(v, ks)) + "}" + rest
    ensures ParseMembers(s) == Got(NormalMembers(v, ks), rest)
    decreases v, |ks|
  {
    var w := v.members[Find(v.members, ks[0])].value;
    var more := MemberTexts(v, ks[1..]);
    var after := Continuation(more, "}", rest);
    ConsParts(Quote(ks[0]) + (":" + Canonical(w)), more);
    JoinSplits(MemberTexts(v, ks), "}", rest);
    Regroup(Quote(ks[0]), ":" + Canonical(w), after);
    Regroup(":", Canonical(w), after);
    ReadCanonical(w, after);
    if |ks| > 1 {
      ReadMembers(v, ks[1..], after[1..], rest);
    }
    MemberStep(s, ks[0], Canonical(w) + after, Normal(w), after, NormalMembers(v, ks[1..]), rest);
  }

  // ---- Normal forms decide sameness ----

  // Objects with the same keys list them in the same order.
  lemma SortedKeysOfSame(v: Json, w: Json)
    requires v.Obj? && w.Obj? && WellFormed(v) && WellFormed(w)
    requires forall k :: k in Keys(v.members) <==> k in Keys(w.members)
    ensures SortedKeys(v.members) == SortedKeys(w.members)
  {
    TextOrder();
    DistinctSameMembers(Keys(v.members), Keys(w.members));
    SortForgetsOrder(Keys(v.members), Keys(w.members), Leq);
  }

  ghost predicate OneNormal(v: Json, w: Json)
    requires WellFormed(v) && WellFormed(w)
  {
    Normal(v) == Normal(w) && Canonical(v) == Canonical(w)
  }

  lemma ItemsHaveOneNormal(v: Json, w: Json)
    requires v.Arr? && w.Arr? && |v.items| == |w.items| && WellFormed(v) && WellFormed(w)
    requires forall i :: 0 <= i < |v.items| ==> OneNormal(v.items[i], w.items[i])
    ensures OneNormal(v, w)
  {
    assert NormalItems(v, 0) == NormalItems(w, 0) && ItemTexts(v, 0) == ItemTexts(w, 0);
  }

  lemma MembersHaveOneNormal(v: Json, w: Json, ks: seq<string>)
    requires v.Obj? && w.Obj? && WellFormed(v) && WellFormed(w)
    requires forall k :: k in ks ==> k in Keys(v.members) && k in Keys(w.members)
    requires forall k :: k in ks ==> OneNormal(v.members[Find(v.members, k)].value, w.members[Find(w.members, k)].value)
    ensures NormalMembers(v, ks) == NormalMembers(w, ks) && MemberTexts(v, ks) == MemberTexts(w, ks)
  {
    forall j | 0 <= j < |ks|
      ensures NormalMembers(v, ks)[j] == NormalMembers(w, ks)[j]
      ensures MemberTexts(v, ks)[j] == MemberTexts(w, ks)[j]
    {
      assert ks[j] in ks;
    }
  }

  lemma {:induction false} SameHasOneNormal(v: Json, w: Json)
    requires WellFormed(v) && WellFormed(w) && Same(v, w)
    ensures OneNormal(v, w)
    decreases v
  {
    match v
    case Arr(items) =>
      forall i | 0 <= i < |items|
        ensures OneNormal(items[i], w.items[i])
      {
        SameHasOneNormal(items[i], w.items[i]);
      }
      ItemsHaveOneNormal(v, w);
    case Obj(ms) =>
      SortedKeysOfSame(v, w);
      var ks := SortedKeys(ms);
      SortPermutes(Keys(ms), Leq);
      forall k | k in ks
        ensures k in Keys(w.members) && OneNormal(ms[Find(ms, k)].value, w.members[Find(w.members, k)].value)
      {
        var i := Find(ms, k);
        SameHasOneNormal(ms[i].value, w.members[Find(w.members, ms[i].key)].value);
      }
      MembersHaveOneNormal(v, w, ks);
    case _ =>
  }

  lemma {:induction false} OneNormalIsSame(v: Json, w: Json)
    requires WellFormed(v) && WellFormed(w) && Normal(v) == Normal(w)
    ensures Same(v, w)
    decreases v
  {
    match v
    case Arr(items) =>
      assert NormalItems(v, 0) == NormalItems(w, 0);
      forall i | 0 <= i < |items|
        ensures Same(items[i], w.items[i])
      {
        assert NormalItems(v, 0)[i] == Normal(items[0 + i]) && NormalItems(w, 0)[i] == Normal(w.items[0 + i]);
        OneNormalIsSame(items[i], w.items[i]);
      }
    case Obj(ms) =>
      var ks, ls := SortedKeys(ms), SortedKeys(w.members);
      var ns, os := NormalMembers(v, ks), NormalMembers(w, ls);
      assert ns == os;
      forall j | 0 <= j < |ks|
        ensures ks[j] == ls[j]
      {
        assert ns[j].key == os[j].key;
      }
      assert ks == ls;
      forall i | 0 <= i < |ms|
        ensures ms[i].key in Keys(w.members)
        ensures Same(ms[i].value, w.members[Find(w.members, ms[i].key)].value)
      {
        assert Keys(ms)[i] == ms[i].key;
        assert ms[i].key in ks;
        var j :| 0 <= j < |ks| && ks[j] == ms[i].key;
        FindUnique(ms, i);
        assert ns[j].value == os[j].value;
        OneNormalIsSame(ms[i].value, w.members[Find(w.members, ms[i].key)].value);
      }
      assert forall k :: k in Keys(ms) <==> k in ks;
    case _ =>
  }

  lemma ReadWhole(v: Json)
    requires WellFormed(v)
    ensures ParseValue(Canonical(v)) == Got(Normal(v), "")
  {
    ReadCanonical(v, "");
    Regroup(Canonical(v), "", "");
    assert Canonical(v) + "" == Canonical(v);
  }

  lemma SameIffNormal(v: Json, w: Json)
    requires WellFormed(v) && WellFormed(w)
    ensures Normal(v) == Normal(w) <==> Same(v, w)
  {
    if Same(v, w) {
      SameHasOneNormal(v, w);
    }
    if Normal(v) == Normal(w) {
      OneNormalIsSame(v, w);
    }
  }

  // The canonical text identifies the value up to the order of object members: a reader
  // recovers it, and two values share a text exactly when they are the same.
  lemma CanonicalIdentifiesValue(v: Json, w: Json)
    requires WellFormed(v) && WellFormed(w)
    ensures ParseValue(Canonical(v)) == Got(Normal(v), "")
    ensures Canonical(v) == Canonical(w) <==> Same(v, w)
  {
    ReadWhole(v);
    ReadWhole(w);
    SameIffNormal(v, w);
    if Same(v, w) {
      SameHasOneNormal(v, w);
    }
  }
}
