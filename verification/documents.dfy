/** Advertisements: their fields, the text they are stored and sent as, and the reading of that text. */
module Documents {
  import opened Options
  import opened StringUtil
  import opened Numerals
  import opened Json
  import opened JsonPrinting

  /** The price is the text it is printed as; every other field is as the user gave it. */
  datatype Doc = Doc(
    id: int, title: string, author: string, description: string, price: string, category: string,
    condition: string, shipping: string, format: string, location: string, keywords: string)

  /** What printing makes of a number that was read: a number, which is printed as it is. */
  ghost predicate PricesSettle(norm: string -> string) {
    forall t :: IsNumber(t) ==> IsNumber(norm(t)) && norm(norm(t)) == norm(t)
  }

  predicate Int32(i: int) {
    -0x8000_0000 <= i < 0x8000_0000
  }

  /** The identifier and the price are of their types. */
  predicate Printable(norm: string -> string, d: Doc) {
    Int32(d.id) && IsNumber(d.price) && norm(d.price) == d.price
  }

  // ---------------------------------------------------------------- text

  function Fields(d: Doc): seq<Member> {
    [Member("id", Num(IntText(d.id))),
     Member("title", Str(CStr(d.title))),
     Member("author", Str(CStr(d.author))),
     Member("description", Str(CStr(d.description))),
     Member("price", Num(d.price)),
     Member("category", Str(CStr(d.category))),
     Member("condition", Str(CStr(d.condition))),
     Member("shipping", Str(CStr(d.shipping))),
     Member("format", Str(CStr(d.format))),
     Member("location", Str(CStr(d.location))),
     Member("keywords", Str(CStr(d.keywords)))]
  }

  /** The text of a document: the digest of this is its key everywhere. */
  function Serialize(d: Doc): string {
    Print(Obj(Fields(d)))
  }

  /** The first member with that key. */
  function Find(ms: seq<Member>, key: string): Option<Json> {
    if ms == [] then None
    else if ms[0].key == key then Some(ms[0].value)
    else Find(ms[1..], key)
  }

  predicate HasStr(ms: seq<Member>, key: string) {
    Find(ms, key).Some? && Find(ms, key).value.Str?
  }

  function GetStr(ms: seq<Member>, key: string): string
    requires HasStr(ms, key)
  {
    CStr(Find(ms, key).value.s)
  }

  /** The members a document is read from are there and of the right types. */
  predicate IsDoc(j: Json) {
    && j.Obj?
    && var ms := j.members;
       && Find(ms, "id").Some? && Find(ms, "id").value.Num? && IsInt(Find(ms, "id").value.token)
       && Int32(IntValue(Find(ms, "id").value.token))
       && Find(ms, "price").Some? && Find(ms, "price").value.Num?
       && HasStr(ms, "title") && HasStr(ms, "author") && HasStr(ms, "description") && HasStr(ms, "category")
       && HasStr(ms, "condition") && HasStr(ms, "shipping") && HasStr(ms, "format") && HasStr(ms, "location")
       && HasStr(ms, "keywords")
  }

  function FromJson(norm: string -> string, j: Json): Doc
    requires IsDoc(j)
  {
    var ms := j.members;
    Doc(IntValue(Find(ms, "id").value.token), GetStr(ms, "title"), GetStr(ms, "author"), GetStr(ms, "description"),
        norm(Find(ms, "price").value.token), GetStr(ms, "category"), GetStr(ms, "condition"), GetStr(ms, "shipping"),
        GetStr(ms, "format"), GetStr(ms, "location"), GetStr(ms, "keywords"))
  }

  /** A text that can be handed to deserialize(): not JSON at all, or a document. */
  predicate Readable(text: string) {
    Parse(text).Some? ==> IsDoc(Parse(text).value)
  }

  function Read(norm: string -> string, text: string): Option<Doc> {
    match Parse(text)
    case None => None
    case Some(j) => if IsDoc(j) then Some(FromJson(norm, j)) else None
  }

  /** The author found in a text; a text that cannot be read has none. */
  function Author(norm: string -> string, text: string): string {
    match Read(norm, text)
    case None => ""
    case Some(d) => d.author
  }

  /** A text read and printed again. */
  function Canon(norm: string -> string, text: string): string {
    match Read(norm, text)
    case None => text
    case Some(d) => Serialize(d)
  }

  // ---------------------------------------------------------------- printing, then reading

  /** The document as C strings. */
  function Clean(d: Doc): Doc {
    Doc(d.id, CStr(d.title), CStr(d.author), CStr(d.description), d.price, CStr(d.category), CStr(d.condition),
        CStr(d.shipping), CStr(d.format), CStr(d.location), CStr(d.keywords))
  }

  predicate FieldsNulFree(d: Doc) {
    && NulFree(d.title) && NulFree(d.author) && NulFree(d.description) && NulFree(d.category) && NulFree(d.condition)
    && NulFree(d.shipping) && NulFree(d.format) && NulFree(d.location) && NulFree(d.keywords)
  }

  lemma {:induction false} FindAt(ms: seq<Member>, i: nat)
    requires i < |ms| && forall k :: 0 <= k < i ==> ms[k].key != ms[i].key
    ensures Find(ms, ms[i].key) == Some(ms[i].value)
  {
    if i > 0 {
      assert ms[0].key != ms[i].key;
      FindAt(ms[1..], i - 1);
    }
  }

  const KEYS: seq<string> :=
    ["id", "title", "author", "description", "price", "category", "condition", "shipping", "format", "location",
     "keywords"]

  lemma {:induction false} KeysDistinct(i: nat, k: nat)
    requires i < |KEYS| && k < i
    ensures KEYS[k] != KEYS[i]
  {
    assert KEYS[0][0] == 'i' && KEYS[1][0] == 't' && KEYS[2][0] == 'a' && KEYS[3][0] == 'd' && KEYS[4][0] == 'p';
    assert KEYS[5][1] == 'a' && KEYS[6][1] == 'o' && KEYS[7][0] == 's' && KEYS[8][0] == 'f' && KEYS[9][0] == 'l';
    assert KEYS[5][0] == 'c' && KEYS[6][0] == 'c' && KEYS[10][0] == 'k';
  }

  lemma {:induction false} FieldAt(d: Doc, i: nat)
    requires i < |KEYS|
    ensures |Fields(d)| == |KEYS| && Fields(d)[i].key == KEYS[i]
    ensures Find(Fields(d), KEYS[i]) == Some(Fields(d)[i].value)
  {
    var ms := Fields(d);
    assert forall k :: 0 <= k < |KEYS| ==> ms[k].key == KEYS[k];
    forall k | 0 <= k < i ensures ms[k].key != ms[i].key {
      KeysDistinct(i, k);
    }
    FindAt(ms, i);
  }

  lemma {:induction false} FieldsWellFormed(norm: string -> string, d: Doc)
    requires Printable(norm, d)
    ensures WellFormed(Obj(Fields(d)))
  {
    IntIsNumber(d.id);
    var ms := Fields(d);
    forall i | 0 <= i < |ms| ensures WellFormed(ms[i].value) {
      assert i == 0 || i == 4 || ms[i].value.Str?;
    }
  }

  lemma {:induction false} NumbersFound(d: Doc)
    ensures Find(Fields(d), "id") == Some(Num(IntText(d.id))) && Find(Fields(d), "price") == Some(Num(d.price))
  {
    FieldAt(d, 0);
    FieldAt(d, 4);
  }

  lemma {:induction false} StringsFound(d: Doc)
    ensures var ms := Fields(d);
            && Find(ms, "title") == Some(Str(CStr(d.title))) && Find(ms, "author") == Some(Str(CStr(d.author)))
            && Find(ms, "description") == Some(Str(CStr(d.description)))
            && Find(ms, "category") == Some(Str(CStr(d.category)))
            && Find(ms, "condition") == Some(Str(CStr(d.condition)))
            && Find(ms, "shipping") == Some(Str(CStr(d.shipping)))
            && Find(ms, "format") == Some(Str(CStr(d.format))) && Find(ms, "location") == Some(Str(CStr(d.location)))
            && Find(ms, "keywords") == Some(Str(CStr(d.keywords)))
  {
    FieldAt(d, 1);
    FieldAt(d, 2);
    FieldAt(d, 3);
    FieldAt(d, 5);
    FieldAt(d, 6);
    FieldAt(d, 7);
    FieldAt(d, 8);
    FieldAt(d, 9);
    FieldAt(d, 10);
  }

  lemma {:induction false} FieldsRead(norm: string -> string, d: Doc)
    requires Printable(norm, d)
    ensures IsDoc(Obj(Fields(d))) && FromJson(norm, Obj(Fields(d))) == Clean(d)
  {
    IntRoundTrip(d.id);
    NumbersFound(d);
    StringsFound(d);
  }

  /** What is read from the text of a document is the document, cut at its NULs. */
  lemma ReadSerialized(norm: string -> string, d: Doc)
    requires Printable(norm, d)
    ensures Read(norm, Serialize(d)) == Some(Clean(d))
  {
    FieldsWellFormed(norm, d);
    TextRoundTrip(Obj(Fields(d)));
    FieldsRead(norm, d);
  }

  /** Reading undoes printing exactly for documents without NULs. */
  lemma RoundTripIffNulFree(norm: string -> string, d: Doc)
    requires Printable(norm, d)
    ensures Read(norm, Serialize(d)) == Some(d) <==> FieldsNulFree(d)
  {
    ReadSerialized(norm, d);
  }

  /** Hash stability: the text of any document, read and printed again by whoever receives it, is the same text, so
      it is stored under the digest it was advertised with. */
  lemma SerializedIsCanonical(norm: string -> string, d: Doc)
    requires Printable(norm, d)
    ensures Canon(norm, Serialize(d)) == Serialize(d)
    ensures Author(norm, Serialize(d)) == CStr(d.author)
  {
    ReadSerialized(norm, d);
    assert Fields(Clean(d)) == Fields(d);
  }

  /** A document is entered under its user exactly if the user has no NUL: only then is it accepted as the user's
      when it is to be removed. */
  lemma OwnIffNulFree(norm: string -> string, d: Doc, user: string)
    requires Printable(norm, d)
    ensures Author(norm, Serialize(d.(author := user))) == user <==> NulFree(user)
  {
    SerializedIsCanonical(norm, d.(author := user));
  }

  /** What is read can be printed, so one reading and printing settles any text. */
  lemma ReadPrintable(norm: string -> string, text: string)
    requires PricesSettle(norm) && Read(norm, text).Some?
    ensures Printable(norm, Read(norm, text).value)
  {
    var j := Parse(text).value;
    assert ParseValue(CStr(text)).Ok?;
    ParsedNumbers(CStr(text));
    FindNumber(j.members, "price");
  }

  /** Every text is settled after one reading and printing. */
  lemma CanonIdempotent(norm: string -> string, text: string)
    requires PricesSettle(norm)
    ensures Canon(norm, Canon(norm, text)) == Canon(norm, text)
    ensures Author(norm, Canon(norm, text)) == Author(norm, text)
  {
    if Read(norm, text).Some? {
      ReadPrintable(norm, text);
      SerializedIsCanonical(norm, Read(norm, text).value);
      assert CStr(Author(norm, text)) == Author(norm, text);
    }
  }

  lemma {:induction false} FindNumber(ms: seq<Member>, key: string)
    requires forall i :: 0 <= i < |ms| ==> WellFormed(ms[i].value)
    ensures Find(ms, key).Some? && Find(ms, key).value.Num? ==> IsNumber(Find(ms, key).value.token)
  {
    if ms != [] && ms[0].key != key { FindNumber(ms[1..], key); }
  }

  // ---------------------------------------------------------------- member by member

  /** The first member of that name is `j`. */
  ghost predicate Given(ms: seq<Member>, key: string, j: Json) {
    exists i :: 0 <= i < |ms| && ms[i] == Member(key, j) && forall k :: 0 <= k < i ==> ms[k].key != key
  }

  lemma {:induction false} FindFirst(ms: seq<Member>, key: string, j: Json)
    ensures Find(ms, key) == Some(j) <==> Given(ms, key, j)
  {
    if i :| 0 <= i < |ms| && ms[i] == Member(key, j) && forall k :: 0 <= k < i ==> ms[k].key != key {
      FindAt(ms, i);
    }
    if Find(ms, key) == Some(j) {
      if ms[0].key == key {
        assert ms[0] == Member(key, j);
      } else {
        FindFirst(ms[1..], key, j);
        var i :| 0 <= i < |ms[1..]| && ms[1..][i] == Member(key, j) && forall k :: 0 <= k < i ==> ms[1..][k].key != key;
        assert ms[i+1] == Member(key, j);
        forall k | 0 <= k < i + 1 ensures ms[k].key != key {
          assert k > 0 ==> ms[1..][k-1].key != key;
        }
      }
    }
  }

  /** The words an advertisement is read from, whatever the order of its members and whatever else it has. */
  lemma {:induction false} ReadsWords(norm: string -> string, ms: seq<Member>, t: string)
    requires IsDoc(Obj(ms))
    ensures var d := FromJson(norm, Obj(ms));
            && (Given(ms, "title", Str(t)) ==> d.title == CStr(t))
            && (Given(ms, "author", Str(t)) ==> d.author == CStr(t))
            && (Given(ms, "description", Str(t)) ==> d.description == CStr(t))
            && (Given(ms, "category", Str(t)) ==> d.category == CStr(t))
            && (Given(ms, "condition", Str(t)) ==> d.condition == CStr(t))
            && (Given(ms, "shipping", Str(t)) ==> d.shipping == CStr(t))
            && (Given(ms, "format", Str(t)) ==> d.format == CStr(t))
            && (Given(ms, "location", Str(t)) ==> d.location == CStr(t))
            && (Given(ms, "keywords", Str(t)) ==> d.keywords == CStr(t))
  {
    FindFirst(ms, "title", Str(t));
    FindFirst(ms, "author", Str(t));
    FindFirst(ms, "description", Str(t));
    FindFirst(ms, "category", Str(t));
    FindFirst(ms, "condition", Str(t));
    FindFirst(ms, "shipping", Str(t));
    FindFirst(ms, "format", Str(t));
    FindFirst(ms, "location", Str(t));
    FindFirst(ms, "keywords", Str(t));
  }

  lemma {:induction false} ReadsNumbers(norm: string -> string, ms: seq<Member>, t: string)
    requires IsDoc(Obj(ms))
    ensures Given(ms, "id", Num(t)) ==> IsInt(t) && FromJson(norm, Obj(ms)).id == IntValue(t)
    ensures Given(ms, "price", Num(t)) ==> FromJson(norm, Obj(ms)).price == norm(t)
  {
    FindFirst(ms, "id", Num(t));
    FindFirst(ms, "price", Num(t));
  }

  ghost predicate GivesWord(ms: seq<Member>, key: string) {
    exists t :: Given(ms, key, Str(t))
  }

  lemma {:induction false} HasStrIff(ms: seq<Member>, key: string)
    ensures HasStr(ms, key) <==> GivesWord(ms, key)
  {
    if HasStr(ms, key) {
      FindFirst(ms, key, Find(ms, key).value);
      assert Given(ms, key, Str(Find(ms, key).value.s));
    }
    if t :| Given(ms, key, Str(t)) {
      FindFirst(ms, key, Str(t));
    }
  }

  /** Which objects are advertisements. */
  lemma {:induction false} IsDocIff(ms: seq<Member>)
    ensures IsDoc(Obj(ms)) <==>
            && (exists t :: Given(ms, "id", Num(t)) && IsInt(t) && -0x8000_0000 <= IntValue(t) < 0x8000_0000)
            && (exists t :: Given(ms, "price", Num(t)))
            && GivesWord(ms, "title") && GivesWord(ms, "author") && GivesWord(ms, "description")
            && GivesWord(ms, "category") && GivesWord(ms, "condition") && GivesWord(ms, "shipping")
            && GivesWord(ms, "format") && GivesWord(ms, "location") && GivesWord(ms, "keywords")
  {
    HasStrIff(ms, "title");
    HasStrIff(ms, "author");
    HasStrIff(ms, "description");
    HasStrIff(ms, "category");
    HasStrIff(ms, "condition");
    HasStrIff(ms, "shipping");
    HasStrIff(ms, "format");
    HasStrIff(ms, "location");
    HasStrIff(ms, "keywords");
    NumGiven(ms, "id");
    NumGiven(ms, "price");
  }

  lemma {:induction false} NumGiven(ms: seq<Member>, key: string)
    ensures forall t :: Find(ms, key) == Some(Num(t)) <==> Given(ms, key, Num(t))
  {
    forall t ensures Find(ms, key) == Some(Num(t)) <==> Given(ms, key, Num(t)) {
      FindFirst(ms, key, Num(t));
    }
  }

  // ---------------------------------------------------------------- the text, word for word

  function Commas(parts: seq<string>): string {
    if parts == [] then "" else parts[0] + (if |parts| == 1 then "" else "," + Commas(parts[1..]))
  }

  /** `"key":value` */
  function Named(key: string, value: string): string {
    "\"" + key + "\":" + value
  }

  predicate Letters(s: string) {
    forall c :: c in s ==> 'a' <= c <= 'z'
  }

  lemma {:induction false} LettersEscaped(s: string)
    requires Letters(s)
    ensures Escaped(s) == s
  {
    if s != [] {
      assert s[0] in s && forall c :: c in s[1..] ==> c in s;
      LettersEscaped(s[1..]);
    }
  }

  lemma {:induction false} MemberNamed(key: string, j: Json)
    requires Letters(key)
    ensures PrintMember(Member(key, j)) == Named(key, Print(j))
  {
    LettersEscaped(key);
  }

  lemma {:induction false} MembersCommas(ms: seq<Member>)
    ensures PrintMembers(ms) == Commas(seq(|ms|, i requires 0 <= i < |ms| => PrintMember(ms[i])))
  {
    var parts := seq(|ms|, i requires 0 <= i < |ms| => PrintMember(ms[i]));
    if ms != [] {
      MembersCommas(ms[1..]);
      assert parts[1..] == seq(|ms[1..]|, i requires 0 <= i < |ms[1..]| => PrintMember(ms[1..][i]));
    }
  }

  lemma {:induction false} HeadLetters()
    ensures Letters("id") && Letters("title") && Letters("author") && Letters("description") && Letters("price")
  {
  }

  lemma {:induction false} MiddleLetters()
    ensures Letters("category") && Letters("condition") && Letters("shipping")
  {
  }

  lemma {:induction false} TailLetters()
    ensures Letters("format") && Letters("location") && Letters("keywords")
  {
  }

  lemma {:induction false} FieldLetters(d: Doc)
    ensures forall i :: 0 <= i < |Fields(d)| ==> Letters(Fields(d)[i].key)
  {
    HeadLetters();
    MiddleLetters();
    TailLetters();
  }

  lemma {:induction false} MembersNamed(ms: seq<Member>)
    requires forall i :: 0 <= i < |ms| ==> Letters(ms[i].key)
    ensures PrintMembers(ms) == Commas(seq(|ms|, i requires 0 <= i < |ms| => Named(ms[i].key, Print(ms[i].value))))
  {
    MembersCommas(ms);
    forall i | 0 <= i < |ms| ensures PrintMember(ms[i]) == Named(ms[i].key, Print(ms[i].value)) {
      MemberNamed(ms[i].key, ms[i].value);
    }
    assert seq(|ms|, i requires 0 <= i < |ms| => PrintMember(ms[i])) ==
           seq(|ms|, i requires 0 <= i < |ms| => Named(ms[i].key, Print(ms[i].value)));
  }

  /** `fs` are the members of `d`, one by one. */
  ghost predicate Lists(fs: seq<Member>, d: Doc) {
    && |fs| == 11
    && fs[0] == Member("id", Num(IntText(d.id)))
    && fs[1] == Member("title", Str(CStr(d.title)))
    && fs[2] == Member("author", Str(CStr(d.author)))
    && fs[3] == Member("description", Str(CStr(d.description)))
    && fs[4] == Member("price", Num(d.price))
    && fs[5] == Member("category", Str(CStr(d.category)))
    && fs[6] == Member("condition", Str(CStr(d.condition)))
    && fs[7] == Member("shipping", Str(CStr(d.shipping)))
    && fs[8] == Member("format", Str(CStr(d.format)))
    && fs[9] == Member("location", Str(CStr(d.location)))
    && fs[10] == Member("keywords", Str(CStr(d.keywords)))
  }

  /** The members of a document as text: the first five, ... */
  function HeadParts(d: Doc): seq<string> {
    [Named("id", IntText(d.id)), Named("title", PrintStr(CStr(d.title))), Named("author", PrintStr(CStr(d.author))),
     Named("description", PrintStr(CStr(d.description))), Named("price", d.price)]
  }

  /** ... and the others. */
  function TailParts(d: Doc): seq<string> {
    [Named("category", PrintStr(CStr(d.category))), Named("condition", PrintStr(CStr(d.condition))),
     Named("shipping", PrintStr(CStr(d.shipping))), Named("format", PrintStr(CStr(d.format))),
     Named("location", PrintStr(CStr(d.location))), Named("keywords", PrintStr(CStr(d.keywords)))]
  }

  lemma {:induction false} HeadListed(ms: seq<Member>, d: Doc)
    requires Lists(ms, d)
    ensures forall i :: 0 <= i < 5 ==> Named(ms[i].key, Print(ms[i].value)) == HeadParts(d)[i]
  {
  }

  lemma {:induction false} TailListed(ms: seq<Member>, d: Doc)
    requires Lists(ms, d)
    ensures forall i :: 5 <= i < 11 ==> Named(ms[i].key, Print(ms[i].value)) == TailParts(d)[i-5]
  {
  }

  lemma {:induction false} PartsJoin(ms: seq<Member>, head: seq<string>, tail: seq<string>)
    requires |ms| == 11 && |head| == 5 && |tail| == 6
    requires forall i :: 0 <= i < 5 ==> Named(ms[i].key, Print(ms[i].value)) == head[i]
    requires forall i :: 5 <= i < 11 ==> Named(ms[i].key, Print(ms[i].value)) == tail[i-5]
    ensures seq(|ms|, i requires 0 <= i < |ms| => Named(ms[i].key, Print(ms[i].value))) == head + tail
  {
  }

  /** The text of a document, word for word. */
  lemma {:induction false} SerializedText(d: Doc)
    ensures Serialize(d) == "{" + Commas(HeadParts(d) + TailParts(d)) + "}"
  {
    var ms := Fields(d);
    FieldLetters(d);
    MembersNamed(ms);
    HeadListed(ms, d);
    TailListed(ms, d);
    PartsJoin(ms, HeadParts(d), TailParts(d));
  }
}
