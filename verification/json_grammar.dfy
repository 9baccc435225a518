/** The grammar of JSON texts (RFC 8259), as trees that say which white space is where and how every character of a
    string is spelled; and that the reader reads exactly the texts of such trees, each as the value the tree stands
    for. */
module JsonGrammar {
  import opened Options
  import opened StringUtil
  import opened Json
  import opened JsonTokens

  // ---------------------------------------------------------------- values (sections 3 to 6)

  datatype Layout =
    | StrAt(us: seq<Unit>)
    | NumAt(token: string)
    | TrueAt
    | FalseAt
    | NullAt
    | ObjAt(members: seq<MemberAt>, inner: string)
    | ArrAt(items: seq<ItemAt>, inner: string)

  /** A member of an object, with the white space around its key and its value. */
  datatype MemberAt = MemberAt(before: string, key: seq<Unit>, afterKey: string, beforeValue: string, value: Layout,
                               after: string)

  datatype ItemAt = ItemAt(before: string, value: Layout, after: string)

  ghost predicate Valid(l: Layout)
    decreases l
  {
    match l
    case StrAt(us) => AllValid(us)
    case NumAt(token) => IsNumber(token)
    case ObjAt(members, inner) => Ws(inner) && ValidMembers(members)
    case ArrAt(items, inner) => Ws(inner) && ValidItems(items)
    case _ => true
  }

  /** The text; what is between the brackets of an empty object or array is `inner`. */
  function Text(l: Layout): string
    decreases l
  {
    match l
    case StrAt(us) => "\"" + Spelled(us) + "\""
    case NumAt(token) => token
    case TrueAt => "true"
    case FalseAt => "false"
    case NullAt => "null"
    case ObjAt(members, inner) => "{" + (if members == [] then inner else MembersText(members)) + "}"
    case ArrAt(items, inner) => "[" + (if items == [] then inner else ItemsText(items)) + "]"
  }

  /** A member from its opening quotation mark to the end of its value. */
  function MemberText(m: MemberAt): string
    decreases m
  {
    "\"" + Spelled(m.key) + "\"" + m.afterKey + ":" + m.beforeValue + Text(m.value)
  }

  function MembersText(ms: seq<MemberAt>): string
    decreases ms
  {
    if ms == [] then ""
    else ms[0].before + MemberText(ms[0]) + ms[0].after + (if |ms| == 1 then "" else "," + MembersText(ms[1..]))
  }

  function ItemsText(es: seq<ItemAt>): string
    decreases es
  {
    if es == [] then ""
    else es[0].before + Text(es[0].value) + es[0].after + (if |es| == 1 then "" else "," + ItemsText(es[1..]))
  }

  ghost predicate ValidMember(m: MemberAt)
    decreases m
  {
    Valid(m.value) && AllValid(m.key) && Ws(m.before) && Ws(m.afterKey) && Ws(m.beforeValue) && Ws(m.after)
  }

  ghost predicate ValidItem(e: ItemAt)
    decreases e
  {
    Valid(e.value) && Ws(e.before) && Ws(e.after)
  }

  ghost predicate ValidMembers(ms: seq<MemberAt>)
    decreases ms, 0
  {
    forall i :: 0 <= i < |ms| ==> ValidMember(ms[i])
  }

  ghost predicate ValidItems(es: seq<ItemAt>)
    decreases es, 0
  {
    forall i :: 0 <= i < |es| ==> ValidItem(es[i])
  }

  /** What it stands for. */
  ghost function Value(l: Layout): Json
    requires Valid(l)
    decreases l
  {
    match l
    case StrAt(us) => Str(Meant(us))
    case NumAt(token) => Num(token)
    case TrueAt => Bool(true)
    case FalseAt => Bool(false)
    case NullAt => Null
    case ObjAt(members, _) => Obj(MemberValues(members))
    case ArrAt(items, _) => Arr(ItemValues(items))
  }

  ghost function MemberValue(m: MemberAt): Member
    requires ValidMember(m)
    decreases m
  {
    Member(Meant(m.key), Value(m.value))
  }

  ghost function MemberValues(ms: seq<MemberAt>): (r: seq<Member>)
    requires ValidMembers(ms)
    ensures |r| == |ms|
    decreases ms, 0
  {
    seq(|ms|, i requires 0 <= i < |ms| => MemberValue(ms[i]))
  }

  ghost function ItemValue(e: ItemAt): Json
    requires ValidItem(e)
    decreases e
  {
    Value(e.value)
  }

  ghost function ItemValues(es: seq<ItemAt>): (r: seq<Json>)
    requires ValidItems(es)
    ensures |r| == |es|
    decreases es, 0
  {
    seq(|es|, i requires 0 <= i < |es| => ItemValue(es[i]))
  }

  // ---------------------------------------------------------------- every layout is read

  lemma {:induction false} LayoutStarts(l: Layout)
    requires Valid(l)
    ensures Text(l) != [] && Solid(Text(l)) && Text(l)[0] != ']' && Text(l)[0] != '}'
  {
  }

  lemma {:induction false} ValueSkips(w: string, t: string)
    requires Ws(w) && Solid(t)
    ensures ParseValue(w + t) == ParseValue(t)
  {
    SkipsWs(w, t);
    SkipsWs("", t);
    assert "" + t == t;
  }

  /** What can follow a number without being taken for part of it. */
  predicate Ends(rest: string) {
    rest == [] || !NumChar(rest[0])
  }

  lemma {:induction false} NumLengthIs(token: string, rest: string)
    requires (forall i :: 0 <= i < |token| ==> NumChar(token[i])) && Ends(rest)
    ensures NumLength(token + rest) == |token|
  {
    if token == [] {
      assert token + rest == rest;
    } else {
      assert (token + rest)[1..] == token[1..] + rest;
      NumLengthIs(token[1..], rest);
    }
  }

  lemma {:induction false} SolidText(t: string)
    requires Solid(t)
    ensures SkipWs(t) == t
  {
    SkipsWs("", t);
    assert "" + t == t;
  }

  lemma {:induction false} NumAtParses(token: string, rest: string)
    requires IsNumber(token) && Ends(rest)
    ensures ParseValue(token + rest) == Ok(Num(token), rest)
  {
    SolidText(token + rest);
    NumLengthIs(token, rest);
    assert (token + rest)[..|token|] == token && (token + rest)[|token|..] == rest;
  }

  lemma {:induction false} WordParses(word: string, j: Json, rest: string)
    requires (word == "true" && j == Bool(true)) || (word == "false" && j == Bool(false)) ||
             (word == "null" && j == Null)
    ensures ParseValue(word + rest) == Ok(j, rest)
  {
    SolidText(word + rest);
    assert (word + rest)[..|word|] == word && (word + rest)[|word|..] == rest;
  }

  lemma {:induction false} StrAtParses(us: seq<Unit>, rest: string)
    requires AllValid(us)
    ensures ParseValue("\"" + Spelled(us) + "\"" + rest) == Ok(Str(Meant(us)), rest)
  {
    var text := "\"" + Spelled(us) + "\"" + rest;
    SolidText(text);
    assert text[1..] == Spelled(us) + "\"" + rest;
    StringParses(us, rest);
  }

  lemma {:induction false} ObjValue(inside: string, ms: seq<Member>, rest: string)
    requires ParseMembers(inside, true) == Ok(ms, rest)
    ensures ParseValue("{" + inside) == Ok(Obj(ms), rest)
  {
    SolidText("{" + inside);
    assert ("{" + inside)[1..] == inside;
  }

  lemma {:induction false} ArrValue(inside: string, js: seq<Json>, rest: string)
    requires ParseItems(inside, true) == Ok(js, rest)
    ensures ParseValue("[" + inside) == Ok(Arr(js), rest)
  {
    SolidText("[" + inside);
    assert ("[" + inside)[1..] == inside;
  }

  lemma {:induction false} NothingInside(inner: string, rest: string)
    requires Ws(inner)
    ensures ParseMembers(inner + "}" + rest, true) == Ok([], rest)
    ensures ParseItems(inner + "]" + rest, true) == Ok([], rest)
  {
    SkipsWs(inner, "}" + rest);
    SkipsWs(inner, "]" + rest);
    assert inner + "}" + rest == inner + ("}" + rest) && inner + "]" + rest == inner + ("]" + rest);
    assert ("}" + rest)[1..] == rest && ("]" + rest)[1..] == rest;
  }

  /** A valid layout is read as its value, whatever follows that cannot be part of a number. */
  lemma {:induction false} LayoutParses(l: Layout, rest: string)
    requires Valid(l) && Ends(rest)
    ensures ParseValue(Text(l) + rest) == Ok(Value(l), rest)
    decreases l, 1
  {
    match l
    case StrAt(us) => StrAtParses(us, rest);
    case NumAt(token) => NumAtParses(token, rest);
    case TrueAt => WordParses("true", Bool(true), rest);
    case FalseAt => WordParses("false", Bool(false), rest);
    case NullAt => WordParses("null", Null, rest);
    case ObjAt(members, inner) => ObjAtParses(members, inner, rest);
    case ArrAt(items, inner) => ArrAtParses(items, inner, rest);
  }

  lemma {:induction false} Bracketed(open: string, mid: string, close: string, rest: string)
    ensures open + mid + close + rest == open + (mid + close + rest)
  {
  }

  lemma {:induction false} ObjAtParses(ms: seq<MemberAt>, inner: string, rest: string)
    requires Ws(inner) && ValidMembers(ms)
    ensures ParseValue(Text(ObjAt(ms, inner)) + rest) == Ok(Obj(MemberValues(ms)), rest)
    decreases ms, 2
  {
    var inside := (if ms == [] then inner else MembersText(ms)) + "}" + rest;
    if ms == [] {
      NothingInside(inner, rest);
      assert MemberValues(ms) == [];
    } else {
      MembersParse(ms, rest, true);
    }
    Bracketed("{", if ms == [] then inner else MembersText(ms), "}", rest);
    ObjValue(inside, MemberValues(ms), rest);
  }

  lemma {:induction false} ArrAtParses(es: seq<ItemAt>, inner: string, rest: string)
    requires Ws(inner) && ValidItems(es)
    ensures ParseValue(Text(ArrAt(es, inner)) + rest) == Ok(Arr(ItemValues(es)), rest)
    decreases es, 2
  {
    var inside := (if es == [] then inner else ItemsText(es)) + "]" + rest;
    if es == [] {
      NothingInside(inner, rest);
      assert ItemValues(es) == [];
    } else {
      ItemsParse(es, rest, true);
    }
    Bracketed("[", if es == [] then inner else ItemsText(es), "]", rest);
    ArrValue(inside, ItemValues(es), rest);
  }

  lemma {:induction false} MemberPieces(key: string, afterKey: string, beforeValue: string, v: string, rest: string)
    ensures ("\"" + key + "\"" + afterKey + ":" + beforeValue + v + rest)[0] == '"'
    ensures ("\"" + key + "\"" + afterKey + ":" + beforeValue + v + rest)[1..] ==
            key + "\"" + (afterKey + (":" + (beforeValue + (v + rest))))
    ensures (":" + (beforeValue + (v + rest)))[1..] == beforeValue + (v + rest)
  {
    var a, b := "\"" + key + "\"" + afterKey + ":" + beforeValue + v + rest,
                "\"" + (key + "\"" + (afterKey + (":" + (beforeValue + (v + rest)))));
    assert a == b;
  }

  lemma {:induction false} MemberParses(m: MemberAt, rest: string)
    requires ValidMember(m) && Ends(rest)
    ensures ParseMember(MemberText(m) + rest) == Ok(MemberValue(m), rest)
    decreases m, 2
  {
    var v := Text(m.value);
    MemberPieces(Spelled(m.key), m.afterKey, m.beforeValue, v, rest);
    StringParses(m.key, m.afterKey + (":" + (m.beforeValue + (v + rest))));
    SkipsWs(m.afterKey, ":" + (m.beforeValue + (v + rest)));
    LayoutStarts(m.value);
    ValueSkips(m.beforeValue, v + rest);
    LayoutParses(m.value, rest);
  }

  lemma {:induction false} EndsAfter(w: string, tail: string)
    requires Ws(w) && tail != [] && tail[0] in ",]}"
    ensures Ends(w + tail) && SkipWs(w + tail) == tail
  {
    SkipsWs(w, tail);
    assert w != [] ==> w[0] in w && (w + tail)[0] == w[0];
  }

  /** One member and what follows it. */
  lemma {:induction false} MemberStep(before: string, text: string, m: Member, after: string, tail: string, first: bool)
    requires Ws(before) && Ws(after) && tail != [] && (tail[0] == '}' || tail[0] == ',')
    requires text != [] && text[0] == '"' && ParseMember(text) == Ok(m, after + tail)
    ensures ParseMembers(before + text, first) ==
            if tail[0] == '}' then Ok([m], tail[1..])
            else match ParseMembers(tail[1..], false)
                 case Error => Error
                 case Ok(ms, rest) => Ok([m] + ms, rest)
  {
    SkipsWs(before, text);
    EndsAfter(after, tail);
  }

  lemma {:induction false} Glued(a: string, b: string, c: string, d: string, tail: string, rest: string)
    requires tail == d + rest
    ensures a + b + c + d + rest == a + (b + (c + tail))
  {
  }

  lemma {:induction false} MembersSplit(ms: seq<MemberAt>, rest: string) returns (next: string, tail: string)
    requires ms != []
    ensures next == if |ms| == 1 then rest else MembersText(ms[1..]) + "}" + rest
    ensures tail == (if |ms| == 1 then "}" else ",") + next && tail[1..] == next
    ensures MembersText(ms) + "}" + rest == ms[0].before + (MemberText(ms[0]) + (ms[0].after + tail))
  {
    next := if |ms| == 1 then rest else MembersText(ms[1..]) + "}" + rest;
    tail := (if |ms| == 1 then "}" else ",") + next;
    var more := if |ms| == 1 then "" else "," + MembersText(ms[1..]);
    assert tail == more + ("}" + rest);
    Glued(ms[0].before, MemberText(ms[0]), ms[0].after, more, tail, "}" + rest);
    assert MembersText(ms) + "}" + rest == MembersText(ms) + ("}" + rest);
  }

  lemma {:induction false} MemberHead(m: MemberAt, tail: string, first: bool)
    requires ValidMember(m) && tail != [] && (tail[0] == '}' || tail[0] == ',')
    ensures ParseMembers(m.before + (MemberText(m) + (m.after + tail)), first) ==
            if tail[0] == '}' then Ok([MemberValue(m)], tail[1..])
            else match ParseMembers(tail[1..], false)
                 case Error => Error
                 case Ok(ms, rest) => Ok([MemberValue(m)] + ms, rest)
    decreases m, 3
  {
    EndsAfter(m.after, tail);
    MemberParses(m, m.after + tail);
    MemberStep(m.before, MemberText(m) + (m.after + tail), MemberValue(m), m.after, tail, first);
  }

  lemma {:induction false} MemberValuesSplit(ms: seq<MemberAt>)
    requires ms != [] && ValidMembers(ms)
    ensures ValidMembers(ms[1..]) && MemberValues(ms) == [MemberValue(ms[0])] + MemberValues(ms[1..])
  {
    assert forall i :: 0 <= i < |ms[1..]| ==> ms[1..][i] == ms[i+1];
  }

  lemma {:induction false} MembersParse(ms: seq<MemberAt>, rest: string, first: bool)
    requires ms != [] && ValidMembers(ms)
    ensures ParseMembers(MembersText(ms) + "}" + rest, first) == Ok(MemberValues(ms), rest)
    decreases ms, 0
  {
    var next, tail := MembersSplit(ms, rest);
    MemberValuesSplit(ms);
    MemberHead(ms[0], tail, first);
    if |ms| == 1 {
      assert tail[0] == '}' && MemberValues(ms) == [MemberValue(ms[0])];
    } else {
      assert tail[0] == ',';
      MembersParse(ms[1..], rest, false);
    }
  }

  /** One item and what follows it. */
  lemma {:induction false} ItemStep(before: string, text: string, j: Json, after: string, tail: string, first: bool)
    requires Ws(before) && Ws(after) && tail != [] && (tail[0] == ']' || tail[0] == ',')
    requires text != [] && Solid(text) && text[0] != ']' && ParseValue(text) == Ok(j, after + tail)
    ensures ParseItems(before + text, first) ==
            if tail[0] == ']' then Ok([j], tail[1..])
            else match ParseItems(tail[1..], false)
                 case Error => Error
                 case Ok(js, rest) => Ok([j] + js, rest)
  {
    SkipsWs(before, text);
    ValueSkips(before, text);
    EndsAfter(after, tail);
  }

  lemma {:induction false} ItemsSplit(es: seq<ItemAt>, rest: string) returns (next: string, tail: string)
    requires es != []
    ensures next == if |es| == 1 then rest else ItemsText(es[1..]) + "]" + rest
    ensures tail == (if |es| == 1 then "]" else ",") + next && tail[1..] == next
    ensures ItemsText(es) + "]" + rest == es[0].before + (Text(es[0].value) + (es[0].after + tail))
  {
    next := if |es| == 1 then rest else ItemsText(es[1..]) + "]" + rest;
    tail := (if |es| == 1 then "]" else ",") + next;
    var more := if |es| == 1 then "" else "," + ItemsText(es[1..]);
    assert tail == more + ("]" + rest);
    Glued(es[0].before, Text(es[0].value), es[0].after, more, tail, "]" + rest);
    assert ItemsText(es) + "]" + rest == ItemsText(es) + ("]" + rest);
  }

  lemma {:induction false} ItemHead(e: ItemAt, tail: string, first: bool)
    requires ValidItem(e) && tail != [] && (tail[0] == ']' || tail[0] == ',')
    ensures ParseItems(e.before + (Text(e.value) + (e.after + tail)), first) ==
            if tail[0] == ']' then Ok([ItemValue(e)], tail[1..])
            else match ParseItems(tail[1..], false)
                 case Error => Error
                 case Ok(js, rest) => Ok([ItemValue(e)] + js, rest)
    decreases e, 3
  {
    EndsAfter(e.after, tail);
    LayoutStarts(e.value);
    LayoutParses(e.value, e.after + tail);
    ItemStep(e.before, Text(e.value) + (e.after + tail), ItemValue(e), e.after, tail, first);
  }

  lemma {:induction false} ItemValuesSplit(es: seq<ItemAt>)
    requires es != [] && ValidItems(es)
    ensures ValidItems(es[1..]) && ItemValues(es) == [ItemValue(es[0])] + ItemValues(es[1..])
  {
    assert forall i :: 0 <= i < |es[1..]| ==> es[1..][i] == es[i+1];
  }

  lemma {:induction false} ItemsParse(es: seq<ItemAt>, rest: string, first: bool)
    requires es != [] && ValidItems(es)
    ensures ParseItems(ItemsText(es) + "]" + rest, first) == Ok(ItemValues(es), rest)
    decreases es, 0
  {
    var next, tail := ItemsSplit(es, rest);
    ItemValuesSplit(es);
    ItemHead(es[0], tail, first);
    if |es| == 1 {
      assert tail[0] == ']' && ItemValues(es) == [ItemValue(es[0])];
    } else {
      assert tail[0] == ',';
      ItemsParse(es[1..], rest, false);
    }
  }

  // ---------------------------------------------------------------- whatever is read is laid out

  lemma {:induction false} NumLaid(t: string) returns (l: Layout)
    requires ParseNum(t).Ok?
    ensures Valid(l) && t == Text(l) + ParseNum(t).rest && Value(l) == ParseNum(t).value
  {
    l := NumAt(t[..NumLength(t)]);
  }

  lemma {:induction false} WordLaid(t: string) returns (l: Layout)
    requires t != [] && (t[0] == 't' || t[0] == 'f' || t[0] == 'n') && Solid(t) && ParseValue(t).Ok?
    ensures Valid(l) && t == Text(l) + ParseValue(t).rest && Value(l) == ParseValue(t).value
  {
    SolidText(t);
    l := if t[0] == 't' then TrueAt else if t[0] == 'f' then FalseAt else NullAt;
  }

  /** Whatever is read is white space and a valid layout of the value, and then what is left over. */
  lemma {:induction false} ValueLaid(s: string) returns (w: string, l: Layout)
    requires ParseValue(s).Ok?
    ensures Ws(w) && Valid(l) && s == w + (Text(l) + ParseValue(s).rest) && Value(l) == ParseValue(s).value
    decreases |s|, 5, 0
  {
    w := WsSkipped(s);
    ValueSkips(w, SkipWs(s));
    l := SolidLaid(SkipWs(s));
  }

  lemma {:induction false} SolidLaid(t: string) returns (l: Layout)
    requires ParseValue(t).Ok? && Solid(t)
    ensures Valid(l) && t == Text(l) + ParseValue(t).rest && Value(l) == ParseValue(t).value
    decreases |t|, 4, 0
  {
    SolidText(t);
    if t[0] == '"' {
      var us := StringLaid(t[1..]);
      l := StrAt(us);
      Bracketed("\"", Spelled(us), "\"", ParseValue(t).rest);
    } else if t[0] == '{' {
      var ms, inner := MembersLaid(t[1..], true);
      l := ObjAt(ms, inner);
      Bracketed("{", if ms == [] then inner else MembersText(ms), "}", ParseValue(t).rest);
    } else if t[0] == '[' {
      var es, inner := ItemsLaid(t[1..], true);
      l := ArrAt(es, inner);
      Bracketed("[", if es == [] then inner else ItemsText(es), "]", ParseValue(t).rest);
    } else if t[0] == 't' || t[0] == 'f' || t[0] == 'n' {
      l := WordLaid(t);
    } else {
      l := NumLaid(t);
    }
  }

  /** What the reader finds in a member. */
  lemma {:induction false} MemberRead(s: string, afterKey: string, u: string)
    requires ParseMember(s).Ok? && afterKey == ParseStr(s[1..]).rest && u == SkipWs(afterKey)
    ensures s == "\"" + s[1..] && ParseStr(s[1..]).Ok? && |afterKey| < |s|
    ensures u != [] && u == ":" + u[1..] && ParseValue(u[1..]).Ok?
    ensures ParseMember(s) == Ok(Member(ParseStr(s[1..]).value, ParseValue(u[1..]).value), ParseValue(u[1..]).rest)
  {
  }

  lemma {:induction false} MemberLaid(s: string) returns (m: MemberAt)
    requires ParseMember(s).Ok?
    ensures ValidMember(m) && m.before == "" == m.after && s == MemberText(m) + ParseMember(s).rest
    ensures MemberValue(m) == ParseMember(s).value
    decreases |s|, 0, 0
  {
    var afterKey := ParseStr(s[1..]).rest;
    var u := SkipWs(afterKey);
    MemberRead(s, afterKey, u);
    var key := StringLaid(s[1..]);
    var w := WsSkipped(afterKey);
    var w', l := ValueLaid(u[1..]);
    m := MemberAt("", key, w, w', l, "");
    MemberGlued(s, Spelled(key), afterKey, w, u, w', Text(l), ParseMember(s).rest);
  }

  lemma {:induction false} MemberGlued(s: string, key: string, afterKey: string, w: string, u: string, w': string,
                                       v: string, rest: string)
    requires s != [] && u != [] && s == "\"" + s[1..] && u == ":" + u[1..]
    requires s[1..] == key + "\"" + afterKey && afterKey == w + u && u[1..] == w' + (v + rest)
    ensures s == "\"" + key + "\"" + w + ":" + w' + v + rest
  {
  }

  /** What is between the brackets, and the closing one. */
  lemma {:induction false} OneMember(s: string, first: bool) returns (m: MemberAt, tail: string)
    requires ParseMembers(s, first).Ok? && !(first && SkipWs(s) != [] && SkipWs(s)[0] == '}')
    ensures ValidMember(m) && s == m.before + (MemberText(m) + (m.after + tail)) && tail != []
    ensures tail[0] == '}' || (tail[0] == ',' && |tail| <= |s| && ParseMembers(tail[1..], false).Ok?)
    ensures if tail[0] == '}' then ParseMembers(s, first) == Ok([MemberValue(m)], tail[1..])
            else ParseMembers(s, first) ==
                 Ok([MemberValue(m)] + ParseMembers(tail[1..], false).value, ParseMembers(tail[1..], false).rest)
    decreases |s|, 0, 1
  {
    var before := WsSkipped(s);
    var t := SkipWs(s);
    m := MemberLaid(t);
    var after := WsSkipped(ParseMember(t).rest);
    tail := SkipWs(ParseMember(t).rest);
    m := m.(before := before, after := after);
  }

  /** What follows an entry: the closing bracket, or a comma and the other entries. */
  lemma {:induction false} TailIs(none: bool, body: string, tail: string, rest: string, close: char)
    requires tail != []
    requires if tail[0] == close then none && tail[1..] == rest
             else tail[0] == ',' && !none && tail[1..] == body + [close] + rest
    ensures tail == if none then [close] + rest else "," + (body + [close] + rest)
  {
    assert tail == [tail[0]] + tail[1..];
  }

  lemma {:induction false} MembersCut(m: MemberAt, ms: seq<MemberAt>, tail: string, rest: string)
    requires tail == (if ms == [] then "}" + rest else "," + (MembersText(ms) + "}" + rest))
    ensures m.before + (MemberText(m) + (m.after + tail)) == MembersText([m] + ms) + "}" + rest
  {
    var more := if ms == [] then "" else "," + MembersText(ms);
    assert ([m] + ms)[1..] == ms;
    assert tail == more + ("}" + rest);
    Glued(m.before, MemberText(m), m.after, more, tail, "}" + rest);
    assert MembersText([m] + ms) + "}" + rest == MembersText([m] + ms) + ("}" + rest);
  }

  lemma {:induction false} MemberValuesNone()
    ensures MemberValues([]) == []
  {
  }

  lemma {:induction false} MemberValueFirst(m: MemberAt, ms: seq<MemberAt>)
    requires ValidMember(m) && ValidMembers(ms)
    ensures ValidMembers([m] + ms) && MemberValues([m] + ms) == [MemberValue(m)] + MemberValues(ms)
  {
    assert forall i :: 0 <= i < |[m] + ms| ==> ValidMember(([m] + ms)[i]);
    assert ([m] + ms)[1..] == ms;
    MemberValuesSplit([m] + ms);
  }

  lemma {:induction false} MembersCutAll(m: MemberAt, ms: seq<MemberAt>, s: string, tail: string, rest: string)
    requires ValidMember(m) && ValidMembers(ms) && tail != [] && s == m.before + (MemberText(m) + (m.after + tail))
    requires if tail[0] == '}' then ms == [] && tail[1..] == rest
             else tail[0] == ',' && ms != [] && tail[1..] == MembersText(ms) + "}" + rest
    ensures ValidMembers([m] + ms) && s == MembersText([m] + ms) + "}" + rest
    ensures MemberValues([m] + ms) == [MemberValue(m)] + MemberValues(ms)
  {
    TailIs(ms == [], MembersText(ms), tail, rest, '}');
    MembersCut(m, ms, tail, rest);
    MemberValueFirst(m, ms);
  }

  lemma {:induction false} MembersLaid(s: string, first: bool) returns (ms: seq<MemberAt>, inner: string)
    requires ParseMembers(s, first).Ok?
    ensures ValidMembers(ms) && Ws(inner) && (ms == [] ==> first)
    ensures s == (if ms == [] then inner else MembersText(ms)) + "}" + ParseMembers(s, first).rest
    ensures MemberValues(ms) == ParseMembers(s, first).value
    decreases |s|, 1, 2
  {
    inner := WsSkipped(s);
    if first && SkipWs(s) != [] && SkipWs(s)[0] == '}' {
      ms := [];
      assert MemberValues(ms) == [] && SkipWs(s) == "}" + SkipWs(s)[1..];
    } else {
      var m, tail := OneMember(s, first);
      if tail[0] == '}' {
        MemberValuesNone();
        MembersCutAll(m, [], s, tail, tail[1..]);
        ms := [m] + [];
      } else {
        var more, nothing := MembersLaid(tail[1..], false);
        MembersCutAll(m, more, s, tail, ParseMembers(tail[1..], false).rest);
        ms := [m] + more;
      }
    }
  }

  lemma {:induction false} OneItem(s: string, first: bool) returns (e: ItemAt, tail: string)
    requires ParseItems(s, first).Ok? && !(first && SkipWs(s) != [] && SkipWs(s)[0] == ']')
    ensures ValidItem(e) && s == e.before + (Text(e.value) + (e.after + tail)) && tail != []
    ensures tail[0] == ']' || (tail[0] == ',' && |tail| <= |s| && ParseItems(tail[1..], false).Ok?)
    ensures if tail[0] == ']' then ParseItems(s, first) == Ok([ItemValue(e)], tail[1..])
            else ParseItems(s, first) ==
                 Ok([ItemValue(e)] + ParseItems(tail[1..], false).value, ParseItems(tail[1..], false).rest)
    decreases |s|, 6, 1
  {
    var w, l := ValueLaid(s);
    var after := WsSkipped(ParseValue(s).rest);
    tail := SkipWs(ParseValue(s).rest);
    e := ItemAt(w, l, after);
  }

  lemma {:induction false} ItemsCut(e: ItemAt, es: seq<ItemAt>, tail: string, rest: string)
    requires tail == (if es == [] then "]" + rest else "," + (ItemsText(es) + "]" + rest))
    ensures e.before + (Text(e.value) + (e.after + tail)) == ItemsText([e] + es) + "]" + rest
  {
    var more := if es == [] then "" else "," + ItemsText(es);
    assert ([e] + es)[1..] == es;
    assert tail == more + ("]" + rest);
    Glued(e.before, Text(e.value), e.after, more, tail, "]" + rest);
    assert ItemsText([e] + es) + "]" + rest == ItemsText([e] + es) + ("]" + rest);
  }

  lemma {:induction false} ItemValuesNone()
    ensures ItemValues([]) == []
  {
  }

  lemma {:induction false} ItemValueFirst(e: ItemAt, es: seq<ItemAt>)
    requires ValidItem(e) && ValidItems(es)
    ensures ValidItems([e] + es) && ItemValues([e] + es) == [ItemValue(e)] + ItemValues(es)
  {
    assert forall i :: 0 <= i < |[e] + es| ==> ValidItem(([e] + es)[i]);
    assert ([e] + es)[1..] == es;
    ItemValuesSplit([e] + es);
  }

  lemma {:induction false} ItemsCutAll(e: ItemAt, es: seq<ItemAt>, s: string, tail: string, rest: string)
    requires ValidItem(e) && ValidItems(es) && tail != [] && s == e.before + (Text(e.value) + (e.after + tail))
    requires if tail[0] == ']' then es == [] && tail[1..] == rest
             else tail[0] == ',' && es != [] && tail[1..] == ItemsText(es) + "]" + rest
    ensures ValidItems([e] + es) && s == ItemsText([e] + es) + "]" + rest
    ensures ItemValues([e] + es) == [ItemValue(e)] + ItemValues(es)
  {
    TailIs(es == [], ItemsText(es), tail, rest, ']');
    ItemsCut(e, es, tail, rest);
    ItemValueFirst(e, es);
  }

  lemma {:induction false} ItemsLaid(s: string, first: bool) returns (es: seq<ItemAt>, inner: string)
    requires ParseItems(s, first).Ok?
    ensures ValidItems(es) && Ws(inner) && (es == [] ==> first)
    ensures s == (if es == [] then inner else ItemsText(es)) + "]" + ParseItems(s, first).rest
    ensures ItemValues(es) == ParseItems(s, first).value
    decreases |s|, 7, 2
  {
    inner := WsSkipped(s);
    if first && SkipWs(s) != [] && SkipWs(s)[0] == ']' {
      es := [];
      assert ItemValues(es) == [] && SkipWs(s) == "]" + SkipWs(s)[1..];
    } else {
      var e, tail := OneItem(s, first);
      if tail[0] == ']' {
        ItemValuesNone();
        ItemsCutAll(e, [], s, tail, tail[1..]);
        es := [e] + [];
      } else {
        var more, nothing := ItemsLaid(tail[1..], false);
        ItemsCutAll(e, more, s, tail, ParseItems(tail[1..], false).rest);
        es := [e] + more;
      }
    }
  }

  // ---------------------------------------------------------------- the reader, exactly

  /** The text, up to its first NUL, is a value laid out, with white space around it. */
  ghost predicate Lays(text: string, w: string, l: Layout, w': string, j: Json) {
    Ws(w) && Valid(l) && Ws(w') && CStr(text) == w + (Text(l) + w') && Value(l) == j
  }

  /** Whatever the white space and the spelling, a JSON text is read as what it stands for. */
  lemma {:induction false} LaysParses(text: string, w: string, l: Layout, w': string, j: Json)
    requires Lays(text, w, l, w', j)
    ensures Parse(text) == Some(j)
  {
    LayoutStarts(l);
    ValueSkips(w, Text(l) + w');
    assert w' != [] ==> w'[0] in w';
    LayoutParses(l, w');
    SkipsWs(w', "");
    assert w' + "" == w';
  }

  /** A text is read as `j` exactly if it is a JSON text of `j`. */
  lemma {:induction false} ParseIff(text: string, j: Json)
    ensures Parse(text) == Some(j) <==> exists w, l, w' :: Lays(text, w, l, w', j)
  {
    if Parse(text) == Some(j) {
      var w, l := ValueLaid(CStr(text));
      var w' := WsSkipped(ParseValue(CStr(text)).rest);
      assert w' + "" == w';
      assert Lays(text, w, l, w', j);
    }
    if w, l, w' :| Lays(text, w, l, w', j) {
      LaysParses(text, w, l, w', j);
    }
  }
}
