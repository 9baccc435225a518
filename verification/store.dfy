/** The advertisement database: texts kept under the digest of the text. */
module Store {
  import opened Options
  import opened Numerals
  import opened Json
  import opened Documents
  import opened DocumentObjects
  import opened Messages
  import opened Daemon

  /** The digest and the settling of prices, with the reading of documents between them. */
  function FormatOf(sha: Text -> Hash, norm: string -> string): Format {
    Format(sha, t => Canon(norm, t), t => Author(norm, t), t => Readable(t))
  }

  // ---------------------------------------------------------------- putting documents received from peers

  /** One document after the other; one without author is refused. */
  function PutSeq(f: Format, store: map<Hash, Text>, ds: seq<Text>): map<Hash, Text> {
    if ds == [] then store
    else
      var before, d := PutSeq(f, store, ds[..|ds|-1]), ds[|ds|-1];
      if f.author(d) == "" then before else before[f.sha(f.canon(d)) := f.canon(d)]
  }

  lemma {:induction false} PutSeqStep(f: Format, store: map<Hash, Text>, ds: seq<Text>, i: nat)
    requires i < |ds|
    ensures PutSeq(f, store, ds[..i+1]) ==
            if f.author(ds[i]) == "" then PutSeq(f, store, ds[..i])
            else PutSeq(f, store, ds[..i])[f.sha(f.canon(ds[i])) := f.canon(ds[i])]
  {
    assert ds[..i+1][..i] == ds[..i];
  }

  /** Putting one more document. */
  lemma {:induction false} PutOne(f: Format, store: map<Hash, Text>, docs: set<Text>, before: map<Hash, Text>, d: Text)
    requires Put(f, store, docs, before)
    ensures Put(f, store, docs + {d},
                if f.author(d) == "" then before else before[f.sha(f.canon(d)) := f.canon(d)])
  {
    var all, after := docs + {d}, if f.author(d) == "" then before else before[f.sha(f.canon(d)) := f.canon(d)];
    forall h
      ensures h in after <==> h in store || StoredUnder(f, all, h)
      ensures h in after ==> if StoredUnder(f, all, h) then StoredAs(f, all, h, after[h]) else after[h] == store[h]
    {
      assert StoredUnder(f, all, h) <==>
             StoredUnder(f, docs, h) || (f.author(d) != "" && h == f.sha(f.canon(d)));
      if StoredUnder(f, docs, h) {
        assert StoredAs(f, docs, h, before[h]);
      }
    }
  }

  /** In whatever order they are put, every document with an author is there afterwards. */
  lemma {:induction false} PutSeqPuts(f: Format, store: map<Hash, Text>, ds: seq<Text>)
    ensures Put(f, store, Elements(ds), PutSeq(f, store, ds))
  {
    if ds == [] {
      assert forall h :: !StoredUnder(f, Elements(ds), h);
    } else {
      var front := ds[..|ds|-1];
      PutSeqPuts(f, store, front);
      PutOne(f, store, Elements(front), PutSeq(f, store, front), ds[|ds|-1]);
      assert ds == front + [ds[|ds|-1]];
      assert Elements(ds) == Elements(front) + {ds[|ds|-1]};
    }
  }

  // ---------------------------------------------------------------- adding documents of a client

  /** The documents a file lists; none if it is not JSON. */
  function Listed(norm: string -> string, text: string): seq<Doc>
    requires Parse(text).Some? ==> IsDocs(Parse(text).value)
  {
    match Parse(text)
    case None => []
    case Some(j) => DocsOf(norm, j)
  }

  /** The texts under which a user's documents are entered. */
  function Entries(author: string, ds: seq<Doc>): (r: seq<Text>)
    ensures |r| == |ds|
  {
    seq(|ds|, i requires 0 <= i < |ds| => Serialize(ds[i].(author := author)))
  }

  function Enter(sha: Text -> Hash, store: map<Hash, Text>, entries: seq<Text>): map<Hash, Text> {
    if entries == [] then store
    else
      var e := entries[|entries|-1];
      Enter(sha, store, entries[..|entries|-1])[sha(e) := e]
  }

  /** No two entries have the same digest, and none has that of something stored. */
  ghost predicate AllNew(sha: Text -> Hash, store: map<Hash, Text>, entries: seq<Text>) {
    && (forall i :: 0 <= i < |entries| ==> sha(entries[i]) !in store)
    && (forall i, j :: 0 <= i < j < |entries| ==> sha(entries[i]) != sha(entries[j]))
  }

  function DigestsOf(sha: Text -> Hash, entries: seq<Text>): set<Hash> {
    set e | e in entries :: sha(e)
  }

  lemma {:induction false} DigestsAppend(sha: Text -> Hash, front: seq<Text>, e: Text)
    ensures DigestsOf(sha, front + [e]) == DigestsOf(sha, front) + {sha(e)}
  {
  }

  lemma {:induction false} EnterKeys(sha: Text -> Hash, store: map<Hash, Text>, entries: seq<Text>)
    ensures Enter(sha, store, entries).Keys == store.Keys + DigestsOf(sha, entries)
  {
    if entries != [] {
      var front, e := entries[..|entries|-1], entries[|entries|-1];
      EnterKeys(sha, store, front);
      assert entries == front + [e];
      DigestsAppend(sha, front, e);
    }
  }

  lemma {:induction false} NewAppend(sha: Text -> Hash, store: map<Hash, Text>, front: seq<Text>, e: Text)
    ensures AllNew(sha, store, front + [e]) <==>
            AllNew(sha, store, front) && sha(e) !in store.Keys + DigestsOf(sha, front)
  {
    var all := front + [e];
    if AllNew(sha, store, all) {
      assert forall i :: 0 <= i < |front| ==> sha(front[i]) == sha(all[i]);
      assert all[|front|] == e;
      forall d | d in front ensures sha(d) != sha(e) {
        var i :| 0 <= i < |front| && front[i] == d;
        assert sha(all[i]) != sha(all[|front|]);
      }
    }
  }

  lemma {:induction false} UpdateSize(m: map<Hash, Text>, k: Hash, v: Text)
    ensures |m[k := v]| == if k in m then |m| else |m| + 1
  {
    assert m[k := v].Keys == m.Keys + {k};
    assert k in m ==> m[k := v].Keys == m.Keys;
  }

  lemma {:induction false} EnterStep(sha: Text -> Hash, store: map<Hash, Text>, front: seq<Text>, e: Text)
    ensures |Enter(sha, store, front + [e])| == |Enter(sha, store, front)| +
              (if sha(e) in store.Keys + DigestsOf(sha, front) then 0 else 1)
  {
    assert (front + [e])[..|front|] == front;
    EnterKeys(sha, store, front);
    UpdateSize(Enter(sha, store, front), sha(e), e);
  }

  lemma {:induction false} GrowthStep(sha: Text -> Hash, store: map<Hash, Text>, front: seq<Text>, e: Text)
    requires |store| <= |Enter(sha, store, front)| <= |store| + |front|
    requires |Enter(sha, store, front)| == |store| + |front| <==> AllNew(sha, store, front)
    ensures |store| <= |Enter(sha, store, front + [e])| <= |store| + |front + [e]|
    ensures |Enter(sha, store, front + [e])| == |store| + |front + [e]| <==> AllNew(sha, store, front + [e])
  {
    EnterStep(sha, store, front, e);
    NewAppend(sha, store, front, e);
  }

  /** The number of entries is at least what the database grows by, and is exactly that when all of them are new,
      and only then. */
  lemma {:induction false} EnterGrowth(sha: Text -> Hash, store: map<Hash, Text>, entries: seq<Text>)
    ensures |store| <= |Enter(sha, store, entries)| <= |store| + |entries|
    ensures |Enter(sha, store, entries)| == |store| + |entries| <==> AllNew(sha, store, entries)
  {
    if entries != [] {
      var front, e := entries[..|entries|-1], entries[|entries|-1];
      assert entries == front + [e];
      EnterGrowth(sha, store, front);
      GrowthStep(sha, store, front, e);
    }
  }

  lemma {:induction false} NothingNovel(sha: Text -> Hash, entries: seq<Text>, hashes: set<Hash>)
    requires forall i :: 0 <= i < |entries| ==> sha(entries[i]) in hashes
    ensures Novel(sha, entries, hashes) == []
  {
    if entries != [] { NothingNovel(sha, entries[..|entries|-1], hashes); }
  }

  lemma {:induction false} NovelCovers(sha: Text -> Hash, entries: seq<Text>, hashes: set<Hash>, i: nat)
    requires i < |entries|
    ensures sha(entries[i]) in hashes || entries[i] in Novel(sha, entries, hashes)
  {
    if i < |entries| - 1 { NovelCovers(sha, entries[..|entries|-1], hashes, i); }
  }

  /** Adding the same documents again, once the hash set is that of the database, adds nothing. */
  lemma {:induction false} AddingAgain(sha: Text -> Hash, store: map<Hash, Text>, entries: seq<Text>, hashes: set<Hash>)
    requires hashes <= store.Keys
    ensures Novel(sha, entries, Enter(sha, store, Novel(sha, entries, hashes)).Keys) == []
  {
    var novel := Novel(sha, entries, hashes);
    EnterKeys(sha, store, novel);
    forall i | 0 <= i < |entries| ensures sha(entries[i]) in Enter(sha, store, novel).Keys {
      NovelCovers(sha, entries, hashes, i);
    }
    NothingNovel(sha, entries, Enter(sha, store, novel).Keys);
  }

  // ---------------------------------------------------------------- removing documents of a client

  /** The user asks for the document with this hash, and it is there. */
  predicate Asked(store: map<Hash, Text>, hashes: set<Hash>, hexes: set<string>, h: Hash) {
    h in hashes && h in store && Bytes(h) && Hex(h) in hexes
  }

  predicate Owned(norm: string -> string, store: map<Hash, Text>, h: Hash, author: string) {
    h in store && Author(norm, store[h]) == author
  }

  /** The documents a user asks to remove that are there. */
  function Targets(store: map<Hash, Text>, hashes: set<Hash>, hexes: set<string>): (r: set<Hash>) {
    set h | h in hashes && Asked(store, hashes, hexes, h)
  }

  function HexesOf(named: set<Hash>): (r: set<string>)
    requires forall h :: h in named ==> Bytes(h)
  {
    set k | k in named :: Hex(k)
  }

  /** A user who names documents by their digests in hexadecimal names those documents and no others. */
  lemma {:induction false} TargetsNamed(store: map<Hash, Text>, hashes: set<Hash>, named: set<Hash>)
    requires forall h :: h in hashes + named ==> Bytes(h)
    ensures Targets(store, hashes, HexesOf(named)) == named * hashes * store.Keys
  {
    forall h | h in hashes && h in store ensures Asked(store, hashes, HexesOf(named), h) <==> h in named {
      assert Bytes(h);
      if h in named {
        assert Hex(h) in HexesOf(named);
      }
      if Hex(h) in HexesOf(named) {
        var k :| k in named && Hex(k) == Hex(h);
        HexInjective(k, h);
      }
    }
  }

  /** The documents of a user. */
  function OwnedBy(norm: string -> string, store: map<Hash, Text>, author: string): (r: set<Hash>) {
    set h | h in store && Owned(norm, store, h, author)
  }

  /** Whatever is stored can be read back. */
  ghost predicate AllReadable(store: map<Hash, Text>) {
    forall h {:trigger Readable(store[h])} :: h in store ==> Readable(store[h])
  }

  lemma {:induction false} ReadableMinus(store: map<Hash, Text>, gone: set<Hash>)
    requires AllReadable(store)
    ensures AllReadable(store - gone)
  {
  }

  /** A command to remove documents, half done: of those asked for, each has been removed, being the user's, or is
      still to do. */
  datatype Removal = Removal(before: map<Hash, Text>, targets: set<Hash>, mine: set<Hash>) {
    ghost predicate Of(norm: string -> string, hashes: set<Hash>, hexes: set<string>, author: string) {
      && AllReadable(before)
      && (forall h {:trigger Asked(before, hashes, hexes, h)} :: h in targets <==> Asked(before, hashes, hexes, h))
      && (forall h {:trigger Owned(norm, before, h, author)} :: h in mine <==> Owned(norm, before, h, author))
    }

    /** What was removed, what is to do, and what is left. */
    ghost predicate Sifted(todo: set<Hash>, removed: set<Hash>, docs: map<Hash, Text>, numrm: nat) {
      && docs == before - removed && numrm == |removed|
      && removed <= targets * mine && removed !! todo && targets <= removed + todo
    }
  }

  lemma {:induction false} MinusStep(store: map<Hash, Text>, gone: set<Hash>, h: Hash)
    ensures store - gone - {h} == store - (gone + {h})
    ensures store - {} == store
  {
  }

  lemma {:induction false} SiftedOwn(r: Removal, todo: set<Hash>, removed: set<Hash>, h: Hash, numrm: nat)
    requires h in todo && h in r.targets * r.mine && r.Sifted(todo, removed, r.before - removed, numrm)
    ensures r.Sifted(todo - {h}, removed + {h}, r.before - removed - {h}, numrm + 1)
  {
    MinusStep(r.before, removed, h);
  }

  /** Of the documents named by their digests in hexadecimal, `gone` were removed: none that is not the user's; if
      all are, all. */
  ghost predicate Gone(norm: string -> string, user: string, hexes: set<string>, hashes: set<Hash>,
                       before: map<Hash, Text>, after: map<Hash, Text>, reply: string, gone: set<Hash>)
  {
    var targets, mine := Targets(before, hashes, hexes), OwnedBy(norm, before, user);
    && gone <= targets * mine && after == before - gone && (targets <= mine ==> gone == targets)
    && reply == (if |before| == 0 then "no docs"
                 else if targets <= mine then "Removed " + Decimal(|before| - |after|) + " entries"
                 else "db rm: author != user")
  }

  // ---------------------------------------------------------------- looking up

  /** The documents found, in the order of the hashes. */
  function GetSeq(store: map<Hash, Text>, hs: seq<Hash>): seq<Text> {
    if hs == [] then []
    else GetSeq(store, hs[..|hs|-1]) + (if hs[|hs|-1] in store then [store[hs[|hs|-1]]] else [])
  }

  lemma {:induction false} GetSeqLooksUp(store: map<Hash, Text>, hs: seq<Hash>)
    ensures Elements(GetSeq(store, hs)) == Lookup(store, Elements(hs))
    ensures |GetSeq(store, hs)| <= |hs|
    ensures (|GetSeq(store, hs)| == |hs|) <==> Elements(hs) <= store.Keys
  {
    if hs != [] {
      var front, h := hs[..|hs|-1], hs[|hs|-1];
      GetSeqLooksUp(store, front);
      assert hs == front + [h];
      assert Elements(hs) == Elements(front) + {h};
      assert Lookup(store, Elements(hs)) == Lookup(store, Elements(front)) + if h in store then {store[h]} else {};
    }
  }

  /** The order is that of the hashes, and what is asked for twice is given twice. */
  lemma {:induction false} GetSeqOrder(store: map<Hash, Text>, hs: seq<Hash>, ks: seq<Hash>, h: Hash)
    ensures GetSeq(store, hs + ks) == GetSeq(store, hs) + GetSeq(store, ks)
    ensures GetSeq(store, [h]) == if h in store then [store[h]] else []
  {
    if ks == [] {
      assert hs + ks == hs && GetSeq(store, hs) + [] == GetSeq(store, hs);
    } else {
      assert (hs + ks)[..|hs + ks|-1] == hs + ks[..|ks|-1];
      GetSeqOrder(store, hs, ks[..|ks|-1], h);
    }
  }

  // ---------------------------------------------------------------- the database

  class Database {
    const sha: Text -> Hash
    const norm: string -> string
    var docs: map<Hash, Text>

    function Form(): Format {
      FormatOf(sha, norm)
    }

    constructor (sha: Text -> Hash, norm: string -> string, docs: map<Hash, Text>)
      ensures this.sha == sha && this.norm == norm && this.docs == docs
    {
      this.sha, this.norm, this.docs := sha, norm, docs;
    }

    /** add_document() */
    method AddDocument(author: string, ndoc: Document) returns (h: Hash)
      modifies this, ndoc
      ensures ndoc.Value() == old(ndoc.Value()).(author := author)
      ensures h == ndoc.sha == sha(Serialize(ndoc.Value()))
      ensures docs == old(docs)[h := Serialize(ndoc.Value())]
    {
      ndoc.author := author;
      var entry := ndoc.ToText();
      ndoc.sha := sha(entry);
      h := ndoc.sha;
      docs := docs[h := entry];
    }

    /** One turn of the loop of index_db(). */
    method IndexOne(author: string, d: Doc, hashes: set<Hash>) returns (added: bool)
      modifies this
      ensures var e := Serialize(d.(author := author));
              added == (sha(e) !in hashes) && docs == if added then old(docs)[sha(e) := e] else old(docs)
    {
      var ndoc := new Document.FromValue(d);
      ndoc.author := author;
      assert ndoc.Value() == d.(author := author);
      var entry := ndoc.ToText();
      added := sha(entry) !in hashes;
      if added {
        var h := AddDocument(author, ndoc);
      }
    }

    /** The loop of index_db(). */
    method IndexAll(author: string, ds: seq<Doc>, hashes: set<Hash>) returns (numins: nat)
      modifies this
      ensures var novel := Novel(sha, Entries(author, ds), hashes);
              docs == Enter(sha, old(docs), novel) && numins == |novel|
    {
      numins := 0;
      ghost var entries := Entries(author, ds);
      var i := 0;
      assert entries[..0] == [];
      while i < |ds|
        invariant 0 <= i <= |ds| == |entries|
        invariant docs == Enter(sha, old(docs), Novel(sha, entries[..i], hashes))
        invariant numins == |Novel(sha, entries[..i], hashes)|
      {
        var added := IndexOne(author, ds[i], hashes);
        assert entries[i] == Serialize(ds[i].(author := author));
        NovelStep(entries, i, hashes, old(docs));
        if added { numins := numins + 1; }
        i := i + 1;
      }
      assert entries[..i] == entries;
    }

    /** index_db(): `input` is what the file holds, if it can be opened. */
    method IndexDb(author: string, name: string, input: Option<string>, hashes: set<Hash>) returns (reply: string)
      requires input.Some? && Parse(input.value).Some? ==> IsDocs(Parse(input.value).value)
      modifies this
      ensures input.None? ==> docs == old(docs) && reply == "Cannot open database input file: " + name
      ensures input.Some? ==>
                var novel := Novel(sha, Entries(author, Listed(norm, input.value)), hashes);
                docs == Enter(sha, old(docs), novel) && reply == "Added " + Decimal(|novel|) + " entries"
    {
      if input.None? { return "Cannot open database input file: " + name; }
      var list := new DocumentList();
      var ok := list.Deserialize(norm, input.value);
      assert list.documents == Listed(norm, input.value);
      var numins := IndexAll(author, list.documents, hashes);
      reply := "Added " + Decimal(numins) + " entries";
    }

    lemma {:induction false} NovelStep(entries: seq<Text>, i: nat, hashes: set<Hash>, before: map<Hash, Text>)
      requires i < |entries|
      ensures var novel, novel' := Novel(sha, entries[..i], hashes), Novel(sha, entries[..i+1], hashes);
              var e := entries[i];
              if sha(e) in hashes then novel' == novel
              else novel' == novel + [e] && Enter(sha, before, novel') == Enter(sha, before, novel)[sha(e) := e]
    {
      assert entries[..i+1][..i] == entries[..i];
      var novel := Novel(sha, entries[..i], hashes);
      assert (novel + [entries[i]])[..|novel|] == novel;
    }

    /** db_get_docs() */
    method GetDocs(hs: seq<Hash>) returns (ds: seq<Text>)
      ensures ds == GetSeq(docs, hs)
    {
      ds := [];
      if |docs| == 0 {
        GetNothing(hs);
        return;
      }
      var i := 0;
      while i < |hs|
        invariant 0 <= i <= |hs| && ds == GetSeq(docs, hs[..i])
      {
        assert hs[..i+1][..i] == hs[..i];
        if hs[i] in docs {
          ds := ds + [docs[hs[i]]];
        }
        i := i + 1;
      }
      assert hs[..i] == hs;
    }

    lemma {:induction false} GetNothing(hs: seq<Hash>)
      requires docs == map[]
      ensures GetSeq(docs, hs) == []
    {
      if hs != [] { GetNothing(hs[..|hs|-1]); }
    }

    /** One turn of the loop of db_put_docs(). */
    method PutDoc(d: Text)
      requires Readable(d)
      modifies this
      ensures docs == if Author(norm, d) == "" then old(docs)
                      else old(docs)[sha(Canon(norm, d)) := Canon(norm, d)]
    {
      var ndoc := new Document();
      var ok := ndoc.Deserialize(norm, d);
      var author := ndoc.author;
      if author != "" {
        assert ok && ndoc.Value().(author := author) == ndoc.Value();
        var h := AddDocument(author, ndoc);
      }
    }

    /** db_put_docs() */
    method PutDocs(ds: seq<Text>) returns (n: nat)
      requires forall d :: d in ds ==> Readable(d)
      modifies this
      ensures docs == PutSeq(Form(), old(docs), ds) && n == |ds|
    {
      var i := 0;
      ghost var f, before := Form(), docs;
      while i < |ds|
        invariant 0 <= i <= |ds|
        invariant docs == PutSeq(f, before, ds[..i])
      {
        PutSeqStep(f, before, ds, i);
        PutDoc(ds[i]);
        i := i + 1;
      }
      assert ds[..i] == ds;
      n := |ds|;
    }

    /** One turn of the loop of db_rm_docs(), for a document that was asked for. */
    method RmOne(author: string, h: Hash) returns (mine: bool)
      requires h in docs && AllReadable(docs)
      modifies this
      ensures mine == Owned(norm, old(docs), h, author)
      ensures docs == if mine then old(docs) - {h} else old(docs)
    {
      var ndoc := new Document();
      var ok := ndoc.Deserialize(norm, docs[h]);
      mine := author == ndoc.author;
      if mine { docs := docs - {h}; }
    }

    /** The same, for any hash of the hash set, with the account kept of what is still to do. */
    method RmTurn(author: string, hexes: set<string>, hashes: set<Hash>, h: Hash, numrm: nat, ghost r: Removal,
                  ghost todo: set<Hash>, ghost removed: set<Hash>)
      returns (refused: bool, numrm': nat, ghost removed': set<Hash>)
      requires h in hashes && h in todo && Bytes(h) && r.Of(norm, hashes, hexes, author)
      requires r.Sifted(todo, removed, docs, numrm)
      modifies this
      ensures refused <==> h in r.targets && h !in r.mine
      ensures r.Sifted(if refused then todo else todo - {h}, removed', docs, numrm')
    {
      refused, numrm', removed' := false, numrm, removed;
      var asked := h in docs && Hex(h) in hexes;
      assert asked <==> Asked(r.before, hashes, hexes, h);
      if asked {
        ReadableMinus(r.before, removed);
        var own := RmOne(author, h);
        assert own <==> h in r.mine by {
          assert Owned(norm, r.before - removed, h, author) <==> Owned(norm, r.before, h, author);
        }
        refused := !own;
        if own {
          SiftedOwn(r, todo, removed, h, numrm);
          removed', numrm' := removed + {h}, numrm + 1;
        }
      }
    }

    /** The loop of db_rm_docs(): the hashes are gone through in whatever order the set gives them, until one is
        refused. */
    method RmAll(author: string, hexes: set<string>, hashes: set<Hash>, ghost r: Removal)
      returns (refused: bool, numrm: nat, ghost removed: set<Hash>)
      requires forall h :: h in hashes ==> Bytes(h)
      requires r.Of(norm, hashes, hexes, author) && r.targets <= hashes && docs == r.before
      modifies this
      ensures docs == r.before - removed && removed <= r.targets * r.mine && numrm == |removed|
      ensures refused <==> !(r.targets <= r.mine)
      ensures !refused ==> removed == r.targets
    {
      removed, numrm, refused := {}, 0, false;
      var todo := hashes;
      MinusStep(docs, {}, "");
      while todo != {}
        invariant todo <= hashes && r.Sifted(todo, removed, docs, numrm)
        decreases todo
      {
        var h :| h in todo;
        refused, numrm, removed := RmTurn(author, hexes, hashes, h, numrm, r, todo, removed);
        if refused { return; }
        todo := todo - {h};
      }
    }

    /** db_rm_docs(): only what was asked for and is the user's is removed.  When all that was asked for is the
        user's, all of it goes, and the count reported is what the database shrinks by; otherwise the user is told. */
    method RmDocs(author: string, hexes: set<string>, hashes: set<Hash>)
      returns (reply: string, ghost removed: set<Hash>)
      requires forall h :: h in hashes ==> Bytes(h)
      requires AllReadable(docs)
      modifies this
      ensures Gone(norm, author, hexes, hashes, old(docs), docs, reply, removed)
    {
      removed := {};
      MinusStep(docs, {}, "");
      if |docs| == 0 {
        assert docs == map[];
        return "no docs", removed;
      }
      ghost var r := Removal(docs, Targets(docs, hashes, hexes), OwnedBy(norm, docs, author));
      var refused, numrm;
      refused, numrm, removed := RmAll(author, hexes, hashes, r);
      if refused { return "db rm: author != user", removed; }
      RemovedSize(r.before, removed);
      reply := "Removed " + Decimal(numrm) + " entries";
    }

    lemma {:induction false} RemovedSize(before: map<Hash, Text>, gone: set<Hash>)
      requires gone <= before.Keys
      ensures |before - gone| + |gone| == |before|
    {
      assert (before - gone).Keys == before.Keys - gone;
      assert before.Keys == (before.Keys - gone) + gone;
    }

    /** db_list_hash(), as a set. */
    method ListHash() returns (hs: seq<Hash>)
      ensures Elements(hs) == set h | h in docs :: sha(docs[h])
    {
      hs := [];
      if |docs| == 0 { return; }
      var todo := docs.Keys;
      while todo != {}
        invariant todo <= docs.Keys
        invariant Elements(hs) == set h | h in docs && h !in todo :: sha(docs[h])
        decreases todo
      {
        var h :| h in todo;
        ElementsAppend(hs, [sha(docs[h])]);
        assert (set k | k in docs && k !in todo - {h} :: sha(docs[k])) ==
               (set k | k in docs && k !in todo :: sha(docs[k])) + {sha(docs[h])};
        todo := todo - {h};
        hs := hs + [sha(docs[h])];
      }
    }
  }
}
