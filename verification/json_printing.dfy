/** What is printed is a JSON text: the layout without white space in which every character has its shortest spelling. */
module JsonPrinting {
  import opened Options
  import opened Json
  import opened JsonTokens
  import opened JsonGrammar

  /** The layout without white space, every character in its shortest spelling. */
  function Compact(j: Json): Layout
    decreases j
  {
    match j
    case Str(s) => StrAt(Spell(s))
    case Num(token) => NumAt(token)
    case Bool(b) => if b then TrueAt else FalseAt
    case Null => NullAt
    case Obj(members) => ObjAt(CompactMembers(members), "")
    case Arr(items) => ArrAt(CompactItems(items), "")
  }

  function CompactMember(m: Member): MemberAt
    decreases m
  {
    MemberAt("", Spell(m.key), "", "", Compact(m.value), "")
  }

  function CompactMembers(ms: seq<Member>): seq<MemberAt>
    decreases ms
  {
    if ms == [] then [] else [CompactMember(ms[0])] + CompactMembers(ms[1..])
  }

  function CompactItems(js: seq<Json>): seq<ItemAt>
    decreases js
  {
    if js == [] then [] else [ItemAt("", Compact(js[0]), "")] + CompactItems(js[1..])
  }

  /** What is printed is that layout of the value. */
  lemma {:induction false} PrintIsCompact(j: Json)
    requires WellFormed(j)
    ensures Valid(Compact(j)) && Text(Compact(j)) == Print(j) && Value(Compact(j)) == j
    decreases j, 1
  {
    match j
    case Str(s) => SpellIs(s);
    case Num(_) =>
    case Bool(_) =>
    case Null =>
    case Obj(members) => MembersCompact(members);
    case Arr(items) => ItemsCompact(items);
  }

  lemma {:induction false} MemberCompact(m: Member)
    requires WellFormed(m.value)
    ensures ValidMember(CompactMember(m)) && MemberText(CompactMember(m)) == PrintMember(m)
    ensures MemberValue(CompactMember(m)) == m
    decreases m, 2
  {
    SpellIs(m.key);
    PrintIsCompact(m.value);
  }

  lemma {:induction false} MemberFirstText(m: MemberAt, ms: seq<MemberAt>)
    requires m.before == "" == m.after
    ensures MembersText([m] + ms) == MemberText(m) + (if ms == [] then "" else "," + MembersText(ms))
  {
    assert ([m] + ms)[1..] == ms;
    var t := MemberText(m);
    assert "" + t + "" == t;
  }

  lemma {:induction false} MemberFirst(m: MemberAt, ms: seq<MemberAt>)
    requires ValidMember(m) && ValidMembers(ms) && m.before == "" == m.after
    ensures ValidMembers([m] + ms) && MemberValues([m] + ms) == [MemberValue(m)] + MemberValues(ms)
    ensures MembersText([m] + ms) == MemberText(m) + (if ms == [] then "" else "," + MembersText(ms))
  {
    MemberFirstText(m, ms);
    MemberValueFirst(m, ms);
  }

  lemma {:induction false} MembersCompact(ms: seq<Member>)
    requires forall i :: 0 <= i < |ms| ==> WellFormed(ms[i].value)
    ensures ValidMembers(CompactMembers(ms)) && MembersText(CompactMembers(ms)) == PrintMembers(ms)
    ensures MemberValues(CompactMembers(ms)) == ms && |CompactMembers(ms)| == |ms|
    decreases ms, 0
  {
    if ms != [] {
      MemberCompact(ms[0]);
      MembersCompact(ms[1..]);
      MemberFirst(CompactMember(ms[0]), CompactMembers(ms[1..]));
      assert ms == [ms[0]] + ms[1..];
    }
  }

  lemma {:induction false} ItemFirstText(e: ItemAt, es: seq<ItemAt>)
    requires e.before == "" == e.after
    ensures ItemsText([e] + es) == Text(e.value) + (if es == [] then "" else "," + ItemsText(es))
  {
    assert ([e] + es)[1..] == es;
    var t := Text(e.value);
    assert "" + t + "" == t;
  }

  lemma {:induction false} ItemFirst(e: ItemAt, es: seq<ItemAt>)
    requires ValidItem(e) && ValidItems(es) && e.before == "" == e.after
    ensures ValidItems([e] + es) && ItemValues([e] + es) == [ItemValue(e)] + ItemValues(es)
    ensures ItemsText([e] + es) == Text(e.value) + (if es == [] then "" else "," + ItemsText(es))
  {
    ItemFirstText(e, es);
    ItemValueFirst(e, es);
  }

  lemma {:induction false} ItemsCompact(js: seq<Json>)
    requires forall i :: 0 <= i < |js| ==> WellFormed(js[i])
    ensures ValidItems(CompactItems(js)) && ItemsText(CompactItems(js)) == PrintItems(js)
    ensures ItemValues(CompactItems(js)) == js && |CompactItems(js)| == |js|
    decreases js, 0
  {
    if js != [] {
      PrintIsCompact(js[0]);
      ItemsCompact(js[1..]);
      ItemFirst(ItemAt("", Compact(js[0]), ""), CompactItems(js[1..]));
      assert js == [js[0]] + js[1..];
    }
  }

  /** Reading undoes printing: every value, nested ones included, in any context. */
  lemma {:induction false} PrintParses(j: Json, rest: string)
    requires WellFormed(j) && Ends(rest)
    ensures ParseValue(Print(j) + rest) == Ok(j, rest)
  {
    PrintIsCompact(j);
    LayoutParses(Compact(j), rest);
  }

  /** A printed value, as a text of its own, is read back as it was. */
  lemma {:induction false} TextRoundTrip(j: Json)
    requires WellFormed(j)
    ensures Parse(Print(j)) == Some(j)
  {
    PrintNulFree(j);
    PrintIsCompact(j);
    assert "" + (Text(Compact(j)) + "") == Print(j);
    LaysParses(Print(j), "", Compact(j), "", j);
  }
}
