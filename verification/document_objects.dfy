/** The objects that read and write advertisements in place: a writer that puts the separators of JSON where they
    belong, a document, and a list of documents. */
module DocumentObjects {
  import opened StringUtil
  import opened Numerals
  import opened Json
  import opened JsonGrammar
  import opened JsonPrinting
  import opened Documents

  /** An array or object being written, and how many values have been written in it; a member counts for two. */
  datatype Level = Level(inArray: bool, count: nat)

  function Separator(levels: seq<Level>): string {
    if levels == [] then ""
    else
      var top := levels[|levels|-1];
      if top.count == 0 then "" else if top.inArray || top.count % 2 == 0 then "," else ":"
  }

  function Counted(levels: seq<Level>): seq<Level> {
    if levels == [] then []
    else levels[|levels|-1 := levels[|levels|-1].(count := levels[|levels|-1].count + 1)]
  }

  class Writer {
    var text: string
    var levels: seq<Level>

    constructor ()
      ensures text == "" && levels == []
    {
      text, levels := "", [];
    }

    /** What goes before a value. */
    method Prefix()
      modifies this
      ensures text == old(text) + Separator(old(levels)) && levels == Counted(old(levels))
    {
      if levels != [] {
        var top := levels[|levels|-1];
        if top.count > 0 {
          if top.inArray {
            text := text + ",";
          } else {
            text := text + (if top.count % 2 == 0 then "," else ":");
          }
        }
        levels := levels[|levels|-1 := top.(count := top.count + 1)];
      }
    }

    method Open(inArray: bool)
      modifies this
      ensures text == old(text) + Separator(old(levels)) + (if inArray then "[" else "{")
      ensures levels == Counted(old(levels)) + [Level(inArray, 0)]
    {
      Prefix();
      levels := levels + [Level(inArray, 0)];
      text := text + if inArray then "[" else "{";
    }

    method Close()
      requires levels != []
      modifies this
      ensures text == old(text) + (if old(levels)[|old(levels)|-1].inArray then "]" else "}")
      ensures levels == old(levels)[..|old(levels)|-1]
    {
      text := text + if levels[|levels|-1].inArray then "]" else "}";
      levels := levels[..|levels|-1];
    }

    /** A C string. */
    method String(s: string)
      modifies this
      ensures text == old(text) + Separator(old(levels)) + PrintStr(CStr(s)) && levels == Counted(old(levels))
    {
      Prefix();
      text := text + PrintStr(CStr(s));
    }

    method Int(i: int)
      modifies this
      ensures text == old(text) + Separator(old(levels)) + IntText(i) && levels == Counted(old(levels))
    {
      Prefix();
      text := text + IntText(i);
    }

    method Double(token: string)
      modifies this
      ensures text == old(text) + Separator(old(levels)) + token && levels == Counted(old(levels))
    {
      Prefix();
      text := text + token;
    }
  }

  lemma {:induction false} MembersAppend(ms: seq<Member>, m: Member)
    ensures PrintMembers(ms + [m]) == PrintMembers(ms) + (if ms == [] then "" else ",") + PrintMember(m)
  {
    if ms != [] {
      assert (ms + [m])[1..] == ms[1..] + [m];
      MembersAppend(ms[1..], m);
    }
  }

  lemma {:induction false} ItemsAppend(js: seq<Json>, j: Json)
    ensures PrintItems(js + [j]) == PrintItems(js) + (if js == [] then "" else ",") + Print(j)
  {
    if js != [] {
      assert (js + [j])[1..] == js[1..] + [j];
      ItemsAppend(js[1..], j);
    }
  }

  /** In an object begun at `base` and `outer`, the members `ms` have been written. */
  ghost predicate Written(w: Writer, base: string, outer: seq<Level>, ms: seq<Member>)
    reads w
  {
    w.text == base + PrintMembers(ms) && w.levels == outer + [Level(false, 2 * |ms|)]
  }

  lemma {:induction false} Assoc(base: string, before: string, sep: string, key: string, value: string)
    ensures base + before + sep + key + ":" + value == base + (before + sep + (key + ":" + value))
  {
  }

  lemma {:induction false} WrittenMember(w: Writer, base: string, outer: seq<Level>, fs: seq<Member>, k: nat)
    requires k < |fs|
    requires w.text == base + PrintMembers(fs[..k]) + (if k == 0 then "" else ",") + PrintStr(fs[k].key) + ":" +
                       Print(fs[k].value)
    requires w.levels == outer + [Level(false, 2 * k + 2)]
    ensures Written(w, base, outer, fs[..k+1])
  {
    assert fs[..k] + [fs[k]] == fs[..k+1];
    MembersAppend(fs[..k], fs[k]);
    Assoc(base, PrintMembers(fs[..k]), if k == 0 then "" else ",", PrintStr(fs[k].key), Print(fs[k].value));
  }

  lemma {:induction false} Inner(outer: seq<Level>, k: nat)
    ensures Counted(outer + [Level(false, 2 * k)]) == outer + [Level(false, 2 * k + 1)]
    ensures Counted(outer + [Level(false, 2 * k + 1)]) == outer + [Level(false, 2 * k + 2)]
    ensures Separator(outer + [Level(false, 2 * k)]) == if k == 0 then "" else ","
    ensures Separator(outer + [Level(false, 2 * k + 1)]) == ":"
  {
  }

  /** Member `k`, whose value is a C string. */
  method WriteField(w: Writer, key: string, value: string,
                    ghost base: string, ghost outer: seq<Level>, ghost fs: seq<Member>, ghost k: nat)
    requires k < |fs| && fs[k] == Member(key, Str(CStr(value))) && NulFree(key)
    requires Written(w, base, outer, fs[..k])
    modifies w
    ensures Written(w, base, outer, fs[..k+1])
  {
    Inner(outer, k);
    w.String(key);
    w.String(value);
    WrittenMember(w, base, outer, fs, k);
  }

  method WriteId(w: Writer, id: int, ghost base: string, ghost outer: seq<Level>, ghost fs: seq<Member>, ghost k: nat)
    requires k < |fs| && fs[k] == Member("id", Num(IntText(id))) && Written(w, base, outer, fs[..k])
    modifies w
    ensures Written(w, base, outer, fs[..k+1])
  {
    Inner(outer, k);
    w.String("id");
    w.Int(id);
    WrittenMember(w, base, outer, fs, k);
  }

  method WritePrice(w: Writer, price: string, ghost base: string, ghost outer: seq<Level>, ghost fs: seq<Member>,
                    ghost k: nat)
    requires k < |fs| && fs[k] == Member("price", Num(price)) && Written(w, base, outer, fs[..k])
    modifies w
    ensures Written(w, base, outer, fs[..k+1])
  {
    Inner(outer, k);
    w.String("price");
    w.Double(price);
    WrittenMember(w, base, outer, fs, k);
  }

  lemma {:induction false} FieldsList(d: Doc) returns (fs: seq<Member>)
    ensures Lists(fs, d) && Print(Obj(fs)) == Serialize(d)
  {
    fs := Fields(d);
  }

  method WriteHead(w: Writer, d: Doc, ghost base: string, ghost outer: seq<Level>, ghost fs: seq<Member>)
    requires Lists(fs, d) && Written(w, base, outer, fs[..0])
    modifies w
    ensures Written(w, base, outer, fs[..4])
  {
    WriteId(w, d.id, base, outer, fs, 0);
    WriteField(w, "title", d.title, base, outer, fs, 1);
    WriteField(w, "author", d.author, base, outer, fs, 2);
    WriteField(w, "description", d.description, base, outer, fs, 3);
  }

  method WriteMiddle(w: Writer, d: Doc, ghost base: string, ghost outer: seq<Level>, ghost fs: seq<Member>)
    requires Lists(fs, d) && Written(w, base, outer, fs[..4])
    modifies w
    ensures Written(w, base, outer, fs[..8])
  {
    WritePrice(w, d.price, base, outer, fs, 4);
    WriteField(w, "category", d.category, base, outer, fs, 5);
    WriteField(w, "condition", d.condition, base, outer, fs, 6);
    WriteField(w, "shipping", d.shipping, base, outer, fs, 7);
  }

  method WriteTail(w: Writer, d: Doc, ghost base: string, ghost outer: seq<Level>, ghost fs: seq<Member>)
    requires Lists(fs, d) && Written(w, base, outer, fs[..8])
    modifies w
    ensures Written(w, base, outer, fs[..11])
  {
    WriteField(w, "format", d.format, base, outer, fs, 8);
    WriteField(w, "location", d.location, base, outer, fs, 9);
    WriteField(w, "keywords", d.keywords, base, outer, fs, 10);
  }

  lemma {:induction false} Wrapped(before: string, sep: string, open: string, inner: string, close: string)
    ensures before + sep + open + inner + close == before + sep + (open + inner + close)
  {
  }

  lemma {:induction false} Popped(outer: seq<Level>, level: Level)
    ensures (outer + [level])[..|outer + [level]| - 1] == outer
  {
  }

  /** Document::serialize(): the members in their order. */
  method WriteDoc(w: Writer, d: Doc)
    modifies w
    ensures w.text == old(w.text) + Separator(old(w.levels)) + Serialize(d)
    ensures w.levels == Counted(old(w.levels))
  {
    w.Open(false);
    ghost var base, outer := w.text, Counted(old(w.levels));
    ghost var fs := FieldsList(d);
    assert fs[..0] == [] && fs[..11] == fs;
    WriteHead(w, d, base, outer, fs);
    WriteMiddle(w, d, base, outer, fs);
    WriteTail(w, d, base, outer, fs);
    Popped(outer, Level(false, 22));
    Wrapped(old(w.text), Separator(old(w.levels)), "{", PrintMembers(fs), "}");
    w.Close();
  }

  // ---------------------------------------------------------------- one document

  class Document {
    var id: int
    var title: string
    var author: string
    var description: string
    var price: string
    var category: string
    var condition: string
    var shipping: string
    var format: string
    var location: string
    var keywords: string
    /** Not part of the text. */
    var sha: string

    function Value(): Doc
      reads this
    {
      Doc(id, title, author, description, price, category, condition, shipping, format, location, keywords)
    }

    constructor ()
      ensures author == ""
    {
      title, author, description, category, condition, shipping := "", "", "", "", "", "";
      format, location, keywords, sha := "", "", "", "";
    }

    constructor FromValue(d: Doc)
      ensures Value() == d
    {
      id, title, author, description, price, category := d.id, d.title, d.author, d.description, d.price, d.category;
      condition, shipping, format, location, keywords := d.condition, d.shipping, d.format, d.location, d.keywords;
      sha := "";
    }

    /** Document::deserialize() of an object: every member is asked for, and has to be there. */
    method FromObject(norm: string -> string, obj: Json)
      requires IsDoc(obj)
      modifies this
      ensures Value() == FromJson(norm, obj) && sha == old(sha)
    {
      var ms := obj.members;
      id := IntValue(Find(ms, "id").value.token);
      title := GetStr(ms, "title");
      author := GetStr(ms, "author");
      description := GetStr(ms, "description");
      price := norm(Find(ms, "price").value.token);
      category := GetStr(ms, "category");
      condition := GetStr(ms, "condition");
      shipping := GetStr(ms, "shipping");
      format := GetStr(ms, "format");
      location := GetStr(ms, "location");
      keywords := GetStr(ms, "keywords");
    }

    /** deserialize() of a text: what is not JSON changes nothing. */
    method Deserialize(norm: string -> string, text: string) returns (ok: bool)
      requires Readable(text)
      modifies this
      ensures ok <==> Read(norm, text).Some?
      ensures ok ==> Value() == Read(norm, text).value
      ensures !ok ==> unchanged(this)
    {
      match Parse(text)
      case None =>
        ok := false;
      case Some(j) =>
        FromObject(norm, j);
        ok := true;
    }

    /** serialize() to a text. */
    method ToText() returns (text: string)
      ensures text == Serialize(Value())
    {
      var w := new Writer();
      WriteDoc(w, Value());
      text := w.text;
      assert [] + Serialize(Value()) == Serialize(Value());
    }
  }

  // ---------------------------------------------------------------- many documents

  predicate IsDocs(j: Json) {
    if j.Arr? then forall i :: 0 <= i < |j.items| ==> IsDoc(j.items[i]) else IsDoc(j)
  }

  /** The documents in a value: those of an array in their order, or the one. */
  function DocsOf(norm: string -> string, j: Json): seq<Doc>
    requires IsDocs(j)
  {
    if j.Arr? then seq(|j.items|, i requires 0 <= i < |j.items| => FromJson(norm, j.items[i])) else [FromJson(norm, j)]
  }

  class DocumentList {
    var documents: seq<Doc>

    constructor ()
      ensures documents == []
    {
      documents := [];
    }

    method AppendObject(norm: string -> string, obj: Json)
      requires IsDoc(obj)
      modifies this
      ensures documents == old(documents) + [FromJson(norm, obj)]
    {
      var p := new Document();
      p.FromObject(norm, obj);
      documents := documents + [p.Value()];
    }

    /** The loop of Documents::deserialize(). */
    method AppendAll(norm: string -> string, items: seq<Json>)
      requires forall i :: 0 <= i < |items| ==> IsDoc(items[i])
      modifies this
      ensures documents == old(documents) + seq(|items|, i requires 0 <= i < |items| => FromJson(norm, items[i]))
    {
      ghost var all := seq(|items|, i requires 0 <= i < |items| => FromJson(norm, items[i]));
      var i := 0;
      while i < |items|
        invariant 0 <= i <= |items| == |all|
        invariant documents == old(documents) + all[..i]
      {
        AppendObject(norm, items[i]);
        assert all[..i] + [all[i]] == all[..i+1];
        i := i + 1;
      }
      assert all[..i] == all;
    }

    /** Documents::deserialize() */
    method Deserialize(norm: string -> string, text: string) returns (ok: bool)
      requires Parse(text).Some? ==> IsDocs(Parse(text).value)
      modifies this
      ensures ok <==> Parse(text).Some?
      ensures documents == old(documents) + if ok then DocsOf(norm, Parse(text).value) else []
    {
      var parsed := Parse(text);
      if parsed.None? { return false; }
      var j := parsed.value;
      if j.Arr? {
        AppendAll(norm, j.items);
      } else {
        AppendObject(norm, j);
      }
      return true;
    }

    /** Documents::serialize() */
    method Serialize(w: Writer)
      modifies w
      ensures documents == old(documents)
      ensures w.text == old(w.text) + Separator(old(w.levels)) + Print(Arr(DocJsons(documents)))
      ensures w.levels == Counted(old(w.levels))
    {
      ghost var base, sep, outer, js := w.text, Separator(w.levels), Counted(w.levels), DocJsons(documents);
      w.Open(true);
      WriteItems(w, documents, w.text, outer);
      Popped(outer, Level(true, |js|));
      Wrapped(base, sep, "[", PrintItems(js), "]");
      w.Close();
    }
  }

  method WriteItems(w: Writer, ds: seq<Doc>, ghost base: string, ghost outer: seq<Level>)
    requires ItemsWritten(w, base, outer, [])
    modifies w
    ensures ItemsWritten(w, base, outer, DocJsons(ds))
  {
    ghost var js := DocJsons(ds);
    var i := 0;
    assert js[..0] == [];
    while i < |ds|
      invariant 0 <= i <= |ds| == |js|
      invariant ItemsWritten(w, base, outer, js[..i])
    {
      ItemLevels(outer, i);
      WriteDoc(w, ds[i]);
      assert Print(js[i]) == Documents.Serialize(ds[i]);
      WrittenItem(w, base, outer, js, i);
      i := i + 1;
    }
    assert js[..i] == js;
  }

  ghost predicate ItemsWritten(w: Writer, base: string, outer: seq<Level>, js: seq<Json>)
    reads w
  {
    w.text == base + PrintItems(js) && w.levels == outer + [Level(true, |js|)]
  }

  lemma {:induction false} ItemLevels(outer: seq<Level>, k: nat)
    ensures Counted(outer + [Level(true, k)]) == outer + [Level(true, k + 1)]
    ensures Separator(outer + [Level(true, k)]) == if k == 0 then "" else ","
  {
  }

  lemma {:induction false} WrittenItem(w: Writer, base: string, outer: seq<Level>, js: seq<Json>, k: nat)
    requires k < |js| && w.levels == outer + [Level(true, k + 1)]
    requires w.text == base + PrintItems(js[..k]) + (if k == 0 then "" else ",") + Print(js[k])
    ensures ItemsWritten(w, base, outer, js[..k+1])
  {
    assert js[..k] + [js[k]] == js[..k+1];
    ItemsAppend(js[..k], js[k]);
    assert base + "" == base;
    Wrapped(base, "", PrintItems(js[..k]), if k == 0 then "" else ",", Print(js[k]));
  }

  function DocJsons(ds: seq<Doc>): seq<Json> {
    seq(|ds|, i requires 0 <= i < |ds| => Obj(Fields(ds[i])))
  }

  /** A printed list is read as the same documents in the same order, cut at their NULs. */
  lemma {:induction false} ListRoundTrip(norm: string -> string, ds: seq<Doc>)
    requires forall i :: 0 <= i < |ds| ==> Printable(norm, ds[i])
    ensures var j := Parse(Print(Arr(DocJsons(ds))));
            j.Some? && IsDocs(j.value) && |DocsOf(norm, j.value)| == |ds| &&
            forall i :: 0 <= i < |ds| ==> DocsOf(norm, j.value)[i] == Clean(ds[i])
  {
    var js := DocJsons(ds);
    forall i | 0 <= i < |ds|
      ensures WellFormed(js[i]) && IsDoc(js[i]) && FromJson(norm, js[i]) == Clean(ds[i])
    {
      FieldsWellFormed(norm, ds[i]);
      FieldsRead(norm, ds[i]);
    }
    TextRoundTrip(Arr(js));
  }

  /** A printed document by itself, outside an array, is read as a list of one. */
  lemma {:induction false} OneRoundTrip(norm: string -> string, d: Doc)
    requires Printable(norm, d)
    ensures var j := Parse(Documents.Serialize(d));
            j.Some? && IsDocs(j.value) && DocsOf(norm, j.value) == [Clean(d)]
  {
    FieldsWellFormed(norm, d);
    FieldsRead(norm, d);
    TextRoundTrip(Obj(Fields(d)));
  }

  /** A list in any layout is read document by document, in its order. */
  lemma {:induction false} ListReads(norm: string -> string, text: string, w: string, l: Layout, w': string,
                                     js: seq<Json>, i: nat)
    requires Lays(text, w, l, w', Arr(js)) && (forall j :: j in js ==> IsDoc(j)) && i < |js|
    ensures Parse(text).Some? && IsDocs(Parse(text).value) && |DocsOf(norm, Parse(text).value)| == |js|
    ensures DocsOf(norm, Parse(text).value)[i] == FromJson(norm, js[i])
  {
    LaysParses(text, w, l, w', Arr(js));
    assert js[i] in js;
  }

  /** The text of a list: the texts of its documents between brackets, with commas. */
  lemma {:induction false} ListText(ds: seq<Doc>)
    ensures Print(Arr(DocJsons(ds))) ==
            "[" + Commas(seq(|ds|, i requires 0 <= i < |ds| => Documents.Serialize(ds[i]))) + "]"
  {
    ItemsCommas(ds);
  }

  lemma {:induction false} PrintsCommas(js: seq<Json>)
    ensures PrintItems(js) == Commas(seq(|js|, i requires 0 <= i < |js| => Print(js[i])))
  {
    var parts := seq(|js|, i requires 0 <= i < |js| => Print(js[i]));
    if js != [] {
      PrintsCommas(js[1..]);
      assert parts[1..] == seq(|js[1..]|, i requires 0 <= i < |js[1..]| => Print(js[1..][i]));
    }
  }

  lemma {:induction false} ItemsCommas(ds: seq<Doc>)
    ensures PrintItems(DocJsons(ds)) == Commas(seq(|ds|, i requires 0 <= i < |ds| => Documents.Serialize(ds[i])))
  {
    var js := DocJsons(ds);
    PrintsCommas(js);
    assert seq(|js|, i requires 0 <= i < |js| => Print(js[i])) ==
           seq(|ds|, i requires 0 <= i < |ds| => Documents.Serialize(ds[i]));
  }
}
