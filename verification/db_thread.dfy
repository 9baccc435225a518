/** The db thread: what it does for peers and for clients, and the hash set it keeps of the database. */
module DbThreads {
  import opened Options
  import opened StringUtil
  import opened Numerals
  import opened Json
  import opened Documents
  import opened DocumentObjects
  import opened Messages
  import opened Daemon
  import opened Framing
  import opened Store
  import opened Auth

  // ---------------------------------------------------------------- what is stored

  /** Reading and printing leaves a text alone. */
  predicate Settled(norm: string -> string, text: Text) {
    Readable(text) && Canon(norm, text) == text
  }

  /** Every text is settled and kept under its digest. */
  ghost predicate Sound(sha: Text -> Hash, norm: string -> string, docs: map<Hash, Text>) {
    forall h {:trigger docs[h]} :: h in docs ==> sha(docs[h]) == h && Settled(norm, docs[h])
  }

  /** Reading and printing a document settles it. */
  lemma {:induction false} CanonSettled(norm: string -> string, d: Text)
    requires PricesSettle(norm) && Author(norm, d) != ""
    ensures Settled(norm, Canon(norm, d)) && Author(norm, Canon(norm, d)) != ""
  {
    CanonIdempotent(norm, d);
    ReadPrintable(norm, d);
    ReadSerialized(norm, Read(norm, d).value);
  }

  lemma {:induction false} ListedPrintable(norm: string -> string, text: string, i: nat)
    requires PricesSettle(norm) && (Parse(text).Some? ==> IsDocs(Parse(text).value)) && i < |Listed(norm, text)|
    ensures Printable(norm, Listed(norm, text)[i])
  {
    var j := Parse(text).value;
    ParsedNumbers(CStr(text));
    var obj := if j.Arr? then j.items[i] else j;
    assert WellFormed(obj) && IsDoc(obj) && Listed(norm, text)[i] == FromJson(norm, obj);
    FindNumber(obj.members, "price");
  }

  /** What a user adds is settled, and is the user's up to the first NUL. */
  lemma {:induction false} EntrySettled(norm: string -> string, user: string, text: string, e: Text)
    requires PricesSettle(norm) && (Parse(text).Some? ==> IsDocs(Parse(text).value))
    requires e in Entries(user, Listed(norm, text))
    ensures Settled(norm, e) && Author(norm, e) == CStr(user)
  {
    var ds := Listed(norm, text);
    var i: nat :| i < |ds| && e == Entries(user, ds)[i];
    ListedPrintable(norm, text, i);
    SerializedIsCanonical(norm, ds[i].(author := user));
    ReadSerialized(norm, ds[i].(author := user));
  }

  /** What a user adds is accepted by other daemons exactly if the digest that names the user is not empty and does
      not begin with NUL: what is read back ends at the first NUL, and a document without author is refused. */
  lemma {:induction false} AcceptedBy(sha: Text -> Hash, norm: string -> string, user: string, e: Text)
    requires Settled(norm, e) && Author(norm, e) == CStr(user)
    ensures FormatOf(sha, norm).Accepted(e) <==> user != "" && user[0] != '\0'
  {
  }

  lemma {:induction false} AcceptedIff(sha: Text -> Hash, norm: string -> string, user: string, text: string, e: Text)
    requires PricesSettle(norm) && (Parse(text).Some? ==> IsDocs(Parse(text).value))
    requires e in Entries(user, Listed(norm, text))
    ensures FormatOf(sha, norm).Accepted(e) <==> user != "" && user[0] != '\0'
  {
    EntrySettled(norm, user, text, e);
    AcceptedBy(sha, norm, user, e);
  }

  lemma {:induction false} SoundPut(sha: Text -> Hash, norm: string -> string, before: map<Hash, Text>, docs: set<Text>,
                                    after: map<Hash, Text>)
    requires PricesSettle(norm) && Sound(sha, norm, before) && Put(FormatOf(sha, norm), before, docs, after)
    ensures Sound(sha, norm, after)
  {
    var f := FormatOf(sha, norm);
    forall h | h in after ensures sha(after[h]) == h && Settled(norm, after[h]) {
      if StoredUnder(f, docs, h) {
        assert StoredAs(f, docs, h, after[h]);
        var d :| d in docs && f.author(d) != "" && after[h] == f.canon(d) && h == f.sha(after[h]);
        CanonSettled(norm, d);
      }
    }
  }

  lemma {:induction false} SoundUpdate(sha: Text -> Hash, norm: string -> string, docs: map<Hash, Text>, e: Text)
    requires Sound(sha, norm, docs) && Settled(norm, e)
    ensures Sound(sha, norm, docs[sha(e) := e])
  {
  }

  lemma {:induction false} SoundEnter(sha: Text -> Hash, norm: string -> string, before: map<Hash, Text>,
                                      entries: seq<Text>)
    requires Sound(sha, norm, before) && forall e {:trigger e in entries} :: e in entries ==> Settled(norm, e)
    ensures Sound(sha, norm, Enter(sha, before, entries))
  {
    if entries != [] {
      var front, e := entries[..|entries|-1], entries[|entries|-1];
      assert e in entries && forall e :: e in front ==> e in entries;
      SoundEnter(sha, norm, before, front);
      SoundUpdate(sha, norm, Enter(sha, before, front), e);
    }
  }

  lemma {:induction false} NovelWithin(sha: Text -> Hash, entries: seq<Text>, hashes: set<Hash>, e: Text)
    requires e in Novel(sha, entries, hashes)
    ensures e in entries
  {
    var front := entries[..|entries|-1];
    if e in Novel(sha, front, hashes) { NovelWithin(sha, front, hashes, e); }
  }

  /** The documents of a file, entered for a user, keep the database sound. */
  lemma {:induction false} SoundAdd(sha: Text -> Hash, norm: string -> string, before: map<Hash, Text>, user: string,
                                    text: string, hashes: set<Hash>)
    requires PricesSettle(norm) && Sound(sha, norm, before) && (Parse(text).Some? ==> IsDocs(Parse(text).value))
    ensures Sound(sha, norm, Enter(sha, before, Novel(sha, Entries(user, Listed(norm, text)), hashes)))
  {
    var entries := Entries(user, Listed(norm, text));
    var novel := Novel(sha, entries, hashes);
    forall e | e in novel ensures Settled(norm, e) {
      NovelWithin(sha, entries, hashes, e);
      EntrySettled(norm, user, text, e);
    }
    SoundEnter(sha, norm, before, novel);
  }

  lemma {:induction false} SoundReadable(sha: Text -> Hash, norm: string -> string, docs: map<Hash, Text>,
                                         gone: set<Hash>)
    requires Sound(sha, norm, docs)
    ensures AllReadable(docs) && Sound(sha, norm, docs - gone)
  {
    forall h | h in docs ensures Readable(docs[h]) {
      assert Settled(norm, docs[h]);
    }
  }

  lemma {:induction false} SoundKeys(sha: Text -> Hash, norm: string -> string, docs: map<Hash, Text>)
    requires Sound(sha, norm, docs) && forall t :: Bytes(sha(t))
    ensures forall h :: h in docs.Keys ==> Bytes(h)
  {
    forall h | h in docs.Keys ensures Bytes(h) {
      assert sha(docs[h]) == h;
    }
  }

  lemma {:induction false} SoundDigests(sha: Text -> Hash, norm: string -> string, docs: map<Hash, Text>)
    requires Sound(sha, norm, docs)
    ensures (set h | h in docs :: sha(docs[h])) == docs.Keys
  {
  }

  // ---------------------------------------------------------------- what a command of a client does

  predicate TypedFile(text: string) {
    Parse(text).Some? ==> IsDocs(Parse(text).value)
  }

  ghost predicate TypedFiles(files: map<string, string>) {
    forall n {:trigger files[n]} :: n in files ==> TypedFile(files[n])
  }

  /** "db add": the file named after "json" is read, and of its documents, under the user's name, those are entered
      whose digest is not in the hash set. */
  ghost predicate Added(sha: Text -> Hash, norm: string -> string, files: map<string, string>, user: string,
                        arg: string,
                        hashes: set<Hash>, before: map<Hash, Text>, after: map<Hash, Text>, reply: string)
    requires TypedFiles(files)
  {
    var c := Trimmed(arg);
    if !("json" <= c) then after == before && reply == "unknown cmd"
    else
      var name := Erase(c, 5);
      if name !in files then after == before && reply == "Cannot open database input file: " + name
      else
        var novel := Novel(sha, Entries(user, Listed(norm, files[name])), hashes);
        after == Enter(sha, before, novel) && reply == "Added " + Decimal(|novel|) + " entries"
  }

  lemma {:induction false} JsonWord(c: string)
    ensures "json" <= c <==> Char(c, 0) == 'j' && Char(c, 1) == 's' && Char(c, 2) == 'o' && Char(c, 3) == 'n'
    ensures "json" <= c <==> c[..if |c| < 4 then |c| else 4] == "json"
  {
    if Char(c, 0) == 'j' && Char(c, 1) == 's' && Char(c, 2) == 'o' && Char(c, 3) == 'n' {
      assert c[..4] == "json";
    }
  }

  lemma {:induction false} JsonName(name: string)
    ensures "json" <= "json " + name && Erase("json " + name, 5) == name
  {
    assert ("json " + name)[..4] == "json";
  }

  /** "db rm" */
  ghost predicate Removed(norm: string -> string, user: string, arg: string, hashes: set<Hash>,
                          before: map<Hash, Text>, after: map<Hash, Text>, reply: string)
  {
    if Trimmed(arg) == "" then after == before && reply == "unknown cmd"
    else exists gone :: Gone(norm, user, Elements(Tokens(Trimmed(arg))), hashes, before, after, reply, gone)
  }

  lemma {:induction false} RemovedBy(norm: string -> string, user: string, arg: string, hashes: set<Hash>,
                                     before: map<Hash, Text>, after: map<Hash, Text>, reply: string, gone: set<Hash>)
    requires Trimmed(arg) != ""
    requires Gone(norm, user, Elements(Tokens(Trimmed(arg))), hashes, before, after, reply, gone)
    ensures Removed(norm, user, arg, hashes, before, after, reply)
  {
  }

  lemma {:induction false} EnterOne(f: Format, store: map<Hash, Text>, docs: set<Text>, before: map<Hash, Text>,
                                    e: Text)
    requires Entered(f, store, docs, before)
    ensures Entered(f, store, docs + {e}, before[f.sha(e) := e])
  {
    assert f.Digests(docs + {e}) == f.Digests(docs) + {f.sha(e)};
  }

  /** In whatever order they are entered, every document is there afterwards. */
  lemma {:induction false} EnterEnters(f: Format, store: map<Hash, Text>, entries: seq<Text>)
    ensures Entered(f, store, Elements(entries), Enter(f.sha, store, entries))
  {
    if entries != [] {
      var front, e := entries[..|entries|-1], entries[|entries|-1];
      EnterEnters(f, store, front);
      EnterOne(f, store, Elements(front), Enter(f.sha, store, front), e);
      assert entries == front + [e];
      assert Elements(entries) == Elements(front) + {e};
    }
  }

  /** What a client's command does to the database is one of the additions of the network model: of settled
      documents, with an author if the user can be read back. */
  lemma {:induction false} AddedEnters(sha: Text -> Hash, norm: string -> string, files: map<string, string>,
                                       user: string,
                                       arg: string, hashes: set<Hash>, before: map<Hash, Text>, after: map<Hash, Text>,
                                       reply: string) returns (docs: set<Text>)
    requires PricesSettle(norm) && TypedFiles(files)
    requires Added(sha, norm, files, user, arg, hashes, before, after, reply)
    ensures forall d :: d in docs ==>
              FormatOf(sha, norm).Settled(d) && (FormatOf(sha, norm).author(d) != "" <==> user != "" && user[0] != '\0')
    ensures Entered(FormatOf(sha, norm), before, Unknown(FormatOf(sha, norm), docs, hashes), after)
  {
    var f, name := FormatOf(sha, norm), Erase(Trimmed(arg), 5);
    if "json" <= Trimmed(arg) && name in files {
      var entries := Entries(user, Listed(norm, files[name]));
      docs := Elements(entries);
      forall d | d in docs
        ensures f.Settled(d) && (f.author(d) != "" <==> user != "" && user[0] != '\0')
      {
        EntrySettled(norm, user, files[name], d);
      }
      NovelElements(f, entries, hashes);
      EnterEnters(f, before, Novel(sha, entries, hashes));
    } else {
      docs := {};
    }
  }

  // ---------------------------------------------------------------- what an addition means

  /** The objects a file lists: those of its array, or the one. */
  ghost predicate FileLists(text: string, js: seq<Json>) {
    Parse(text) == Some(Arr(js)) || (|js| == 1 && Parse(text) == Some(js[0]) && !js[0].Arr?)
  }

  /** One text for each object, which reads back as its document but that the author is the user, as far as a C string
      goes. */
  ghost predicate EntriesFor(norm: string -> string, user: string, js: seq<Json>, es: seq<Text>) {
    && |es| == |js|
    && forall i :: 0 <= i < |js| ==>
         IsDoc(js[i]) && Read(norm, es[i]) == Some(FromJson(norm, js[i]).(author := CStr(user)))
  }

  lemma {:induction false} EntryReads(norm: string -> string, user: string, text: string, js: seq<Json>, i: nat)
    requires PricesSettle(norm) && TypedFile(text) && FileLists(text, js) && i < |js|
    ensures |Listed(norm, text)| == |js| && IsDoc(js[i])
    ensures Read(norm, Entries(user, Listed(norm, text))[i]) == Some(FromJson(norm, js[i]).(author := CStr(user)))
  {
    var d := Listed(norm, text)[i];
    ListedPrintable(norm, text, i);
    assert d == FromJson(norm, js[i]);
    ReadSerialized(norm, d.(author := user));
    assert Clean(d.(author := user)) == d.(author := CStr(user));
  }

  lemma {:induction false} NovelCount(sha: Text -> Hash, es: seq<Text>, hashes: set<Hash>)
    ensures |Novel(sha, es, hashes)| == |set i | 0 <= i < |es| && sha(es[i]) !in hashes|
  {
    if es == [] {
    } else {
      var front, e := es[..|es|-1], es[|es|-1];
      NovelCount(sha, front, hashes);
      var places := set i | 0 <= i < |front| && sha(front[i]) !in hashes;
      assert (set i | 0 <= i < |es| && sha(es[i]) !in hashes) == places + if sha(e) in hashes then {} else {|front|};
    }
  }

  /** What adding `es` makes of a database. */
  ghost predicate Grows(sha: Text -> Hash, before: map<Hash, Text>, es: seq<Text>, after: map<Hash, Text>) {
    // each is there, or a text with its digest; what else is there was there
    && (forall i :: 0 <= i < |es| ==> sha(es[i]) in after && sha(after[sha(es[i])]) == sha(es[i]))
    && (forall h :: h in before ==> h in after && after[h] == before[h])
    && (forall h :: h in after && h !in before ==> after[h] in es)
  }

  lemma {:induction false} NovelGrows(sha: Text -> Hash, norm: string -> string, before: map<Hash, Text>, es: seq<Text>)
    requires Sound(sha, norm, before)
    ensures Grows(sha, before, es, Enter(sha, before, Novel(sha, es, before.Keys)))
  {
    var f, novel := FormatOf(sha, norm), Novel(sha, es, before.Keys);
    var after := Enter(sha, before, novel);
    EnterEnters(f, before, novel);
    NovelElements(f, es, before.Keys);
    forall d | d in Elements(novel) ensures sha(d) !in before {
      assert d in Unknown(f, Elements(es), before.Keys);
    }
    forall h | h in before ensures h in after && after[h] == before[h] {
      assert h !in f.Digests(Elements(novel));
    }
    forall h | h in after && h !in before ensures after[h] in es {
      assert after[h] in Elements(novel);
    }
    forall i | 0 <= i < |es| ensures sha(es[i]) in after && sha(after[sha(es[i])]) == sha(es[i]) {
      if sha(es[i]) !in before {
        assert es[i] in Unknown(f, Elements(es), before.Keys);
        assert sha(es[i]) in f.Digests(Elements(novel));
      }
    }
  }

  /** "db add json name": the database then holds, for every advertisement in the file, a text that reads back as it,
      under the user's name, and what it held before, and nothing else; the count is of those not held before. */
  lemma {:induction false} AddedMeans(sha: Text -> Hash, norm: string -> string, files: map<string, string>,
                                      user: string, arg: string, name: string, js: seq<Json>,
                                      before: map<Hash, Text>, after: map<Hash, Text>, reply: string)
    returns (es: seq<Text>)
    requires PricesSettle(norm) && TypedFiles(files) && Sound(sha, norm, before)
    requires Added(sha, norm, files, user, arg, before.Keys, before, after, reply)
    requires Trimmed(arg) == "json " + name && name in files && FileLists(files[name], js)
    ensures EntriesFor(norm, user, js, es) && Grows(sha, before, es, after)
    ensures reply == "Added " + Decimal(|set i | 0 <= i < |es| && sha(es[i]) !in before|) + " entries"
  {
    assert TypedFile(files[name]);
    JsonName(name);
    es := Entries(user, Listed(norm, files[name]));
    if js == [] { assert Listed(norm, files[name]) == []; }
    forall i | 0 <= i < |js| ensures IsDoc(js[i]) && |es| == |js| {
      EntryReads(norm, user, files[name], js, i);
    }
    forall i | 0 <= i < |js| ensures Read(norm, es[i]) == Some(FromJson(norm, js[i]).(author := CStr(user))) {
      EntryReads(norm, user, files[name], js, i);
    }
    NovelGrows(sha, norm, before, es);
    NovelCount(sha, es, before.Keys);
    assert (set i | 0 <= i < |es| && sha(es[i]) !in before.Keys) == (set i | 0 <= i < |es| && sha(es[i]) !in before);
  }

  /** The other cases. */
  lemma {:induction false} AddedNothing(sha: Text -> Hash, norm: string -> string, files: map<string, string>,
                                        user: string, arg: string, hashes: set<Hash>,
                                        before: map<Hash, Text>, after: map<Hash, Text>, reply: string)
    requires TypedFiles(files) && Added(sha, norm, files, user, arg, hashes, before, after, reply)
    ensures Trimmed(arg)[..if |Trimmed(arg)| < 4 then |Trimmed(arg)| else 4] != "json" ==>
              after == before && reply == "unknown cmd"
    ensures forall name :: Trimmed(arg) == "json " + name && name !in files ==>
              after == before && reply == "Cannot open database input file: " + name
    ensures forall name :: Trimmed(arg) == "json " + name && name in files && Parse(files[name]).None? ==>
              after == before && reply == "Added 0 entries"
  {
    JsonWord(Trimmed(arg));
    forall name | Trimmed(arg) == "json " + name
      ensures "json" <= Trimmed(arg) && Erase(Trimmed(arg), 5) == name
    {
      JsonName(name);
    }
    DecimalText(0, 0);
  }

  lemma {:induction false} PutAlone(f: Format, before: map<Hash, Text>, text: Text, after: map<Hash, Text>)
    requires Put(f, before, {text}, after)
    ensures after == if f.author(text) == "" then before else before[f.sha(f.canon(text)) := f.canon(text)]
  {
    forall h
      ensures StoredUnder(f, {text}, h) <==> f.author(text) != "" && h == f.sha(f.canon(text))
      ensures h in after && StoredUnder(f, {text}, h) ==> after[h] == f.canon(text)
    {
      assert text in {text};
      if h in after && StoredUnder(f, {text}, h) { assert StoredAs(f, {text}, h, after[h]); }
    }
    assert after.Keys == (if f.author(text) == "" then before else before[f.sha(f.canon(text)) := f.canon(text)]).Keys;
  }

  /** What comes from a peer is stored as it prints once it is read, under the digest of that, and not at all without an
      author. */
  lemma {:induction false} PutPrints(sha: Text -> Hash, norm: string -> string, before: map<Hash, Text>, text: Text,
                                     after: map<Hash, Text>)
    requires Put(FormatOf(sha, norm), before, {text}, after)
    ensures match Read(norm, text)
            case Some(d) =>
              after == if d.author == "" then before
                       else before[sha(Documents.Serialize(d)) := Documents.Serialize(d)]
            case None => after == before
  {
    PutAlone(FormatOf(sha, norm), before, text, after);
  }

  // ---------------------------------------------------------------- what a removal means

  /** "db rm words": whatever goes is the user's and named by one of the words.  If all the documents named are the
      user's, those go and no others, and the reply counts them; if some is not, the user is told. */
  lemma {:induction false} RemovedMeans(norm: string -> string, user: string, arg: string, before: map<Hash, Text>,
                                        after: map<Hash, Text>, reply: string)
    requires Removed(norm, user, arg, before.Keys, before, after, reply) && forall h :: h in before.Keys ==> Bytes(h)
    ensures after.Keys <= before.Keys && forall h :: h in after ==> after[h] == before[h]
    ensures forall h :: h in before && h !in after ==>
              Author(norm, before[h]) == user && Hex(h) in Tokens(Trimmed(arg))
    ensures Trimmed(arg) == "" ==> after == before && reply == "unknown cmd"
    ensures Trimmed(arg) != "" && before == map[] ==> reply == "no docs"
    ensures Trimmed(arg) != "" && before != map[] ==>
              if forall h :: h in before && Hex(h) in Tokens(Trimmed(arg)) ==> Author(norm, before[h]) == user then
                && (forall h :: h in before ==> (h in after <==> Hex(h) !in Tokens(Trimmed(arg))))
                && reply == "Removed " + Decimal(|set h | h in before && Hex(h) in Tokens(Trimmed(arg))|) + " entries"
              else reply == "db rm: author != user"
  {
    if Trimmed(arg) != "" {
      var words := Tokens(Trimmed(arg));
      var gone :| Gone(norm, user, Elements(words), before.Keys, before, after, reply, gone);
      GoneSafe(norm, user, words, before, after, reply, gone);
      GoneMeans(norm, user, words, before, after, reply, gone);
    }
  }

  lemma {:induction false} TargetsAre(before: map<Hash, Text>, words: seq<string>)
    requires forall h :: h in before.Keys ==> Bytes(h)
    ensures Targets(before, before.Keys, Elements(words)) == set h | h in before && Hex(h) in words
  {
    forall h | h in before ensures h in Targets(before, before.Keys, Elements(words)) <==> Hex(h) in words {
      assert Hex(h) in Elements(words) <==> Hex(h) in words;
    }
  }

  lemma {:induction false} OwnedAre(norm: string -> string, before: map<Hash, Text>, user: string, named: set<Hash>)
    requires named <= before.Keys
    ensures named <= OwnedBy(norm, before, user) <==> forall h :: h in named ==> Author(norm, before[h]) == user
  {
  }

  lemma {:induction false} GoneSafe(norm: string -> string, user: string, words: seq<string>, before: map<Hash, Text>,
                                    after: map<Hash, Text>, reply: string, gone: set<Hash>)
    requires Gone(norm, user, Elements(words), before.Keys, before, after, reply, gone)
    requires forall h :: h in before.Keys ==> Bytes(h)
    ensures after.Keys <= before.Keys && forall h :: h in after ==> after[h] == before[h]
    ensures forall h :: h in before && h !in after ==> Author(norm, before[h]) == user && Hex(h) in words
  {
    TargetsAre(before, words);
    forall h | h in gone ensures h in before && Author(norm, before[h]) == user && Hex(h) in words {
      assert h in Targets(before, before.Keys, Elements(words)) && h in OwnedBy(norm, before, user);
    }
  }

  lemma {:induction false} GoneReply(norm: string -> string, user: string, named: set<Hash>, words: seq<string>,
                                     before: map<Hash, Text>, after: map<Hash, Text>, reply: string, gone: set<Hash>)
    requires Gone(norm, user, Elements(words), before.Keys, before, after, reply, gone)
    requires named == Targets(before, before.Keys, Elements(words)) <= before.Keys
    ensures before == map[] ==> reply == "no docs"
    ensures before != map[] ==>
              if forall h :: h in named ==> Author(norm, before[h]) == user then
                after == before - named && reply == "Removed " + Decimal(|named|) + " entries"
              else reply == "db rm: author != user"
  {
    EmptyMap(before);
    OwnedAre(norm, before, user, named);
    if named <= OwnedBy(norm, before, user) { GoneOwn(norm, user, words, before, after, reply, gone); }
  }

  lemma {:induction false} GoneOwn(norm: string -> string, user: string, words: seq<string>, before: map<Hash, Text>,
                                   after: map<Hash, Text>, reply: string, gone: set<Hash>)
    requires Gone(norm, user, Elements(words), before.Keys, before, after, reply, gone)
    requires Targets(before, before.Keys, Elements(words)) <= OwnedBy(norm, before, user) * before.Keys
    ensures gone == Targets(before, before.Keys, Elements(words)) && after == before - gone
    ensures |before| - |after| == |gone| && (|before| != 0 ==> reply == "Removed " + Decimal(|gone|) + " entries")
  {
    assert |before| - |after| == |gone| by { GoneCount(before, gone); }
  }

  lemma {:induction false} EmptyMap(m: map<Hash, Text>)
    ensures m == map[] <==> |m| == 0
  {
  }

  lemma {:induction false} GoneMeans(norm: string -> string, user: string, words: seq<string>, before: map<Hash, Text>,
                                     after: map<Hash, Text>, reply: string, gone: set<Hash>)
    requires Gone(norm, user, Elements(words), before.Keys, before, after, reply, gone)
    requires forall h :: h in before.Keys ==> Bytes(h)
    ensures before == map[] ==> reply == "no docs"
    ensures before != map[] ==>
              if forall h :: h in before && Hex(h) in words ==> Author(norm, before[h]) == user then
                && (forall h :: h in before ==> (h in after <==> Hex(h) !in words))
                && reply == "Removed " + Decimal(|set h | h in before && Hex(h) in words|) + " entries"
              else reply == "db rm: author != user"
  {
    var named := set h | h in before && Hex(h) in words;
    TargetsAre(before, words);
    GoneReply(norm, user, named, words, before, after, reply, gone);
  }

  lemma {:induction false} OneWord(t: string)
    requires t != "" && forall c :: c in t ==> !IsSpace(c)
    ensures Trimmed(t) == t && Tokens(t) == [t]
  {
    assert t[0] in t && t[|t|-1] in t;
    TrimUnique("", t, "");
    assert "" + t + "" == t;
    TokensUnique([t], "");
    assert Spaced([t], "") == t;
  }

  lemma {:induction false} HexSolid(h: string)
    requires Bytes(h)
    ensures forall c :: c in Hex(h) ==> !IsSpace(c)
  {
    if h != [] { HexSolid(h[1..]); }
  }

  /** A user who asks for one document of his, by its digest, gets it removed and is told so. */
  lemma {:induction false} OwnIsRemoved(norm: string -> string, user: string, before: map<Hash, Text>, h: Hash,
                                        after: map<Hash, Text>, reply: string)
    requires h in before && h != "" && Author(norm, before[h]) == user && forall k :: k in before.Keys ==> Bytes(k)
    requires Removed(norm, user, Hex(h), before.Keys, before, after, reply)
    ensures after == before - {h} && reply == "Removed 1 entries"
  {
    assert Bytes(h);
    HexSolid(h);
    OneWord(Hex(h));
    var gone :| Gone(norm, user, Elements([Hex(h)]), before.Keys, before, after, reply, gone);
    OneGone(norm, user, before, h, after, reply, gone);
  }

  lemma {:induction false} OneGone(norm: string -> string, user: string, before: map<Hash, Text>, h: Hash,
                                   after: map<Hash, Text>, reply: string, gone: set<Hash>)
    requires h in before && Author(norm, before[h]) == user && forall k :: k in before.Keys ==> Bytes(k)
    requires Gone(norm, user, Elements([Hex(h)]), before.Keys, before, after, reply, gone)
    ensures after == before - {h} && reply == "Removed 1 entries"
  {
    TargetsAre(before, [Hex(h)]);
    OneNamed(before, h);
    GoneOwn(norm, user, [Hex(h)], before, after, reply, gone);
    assert |gone| == 1 && Decimal(1) == "1";
  }

  lemma {:induction false} OneNamed(before: map<Hash, Text>, h: Hash)
    requires h in before && forall k :: k in before.Keys ==> Bytes(k)
    ensures forall k :: k in before ==> (Hex(k) in [Hex(h)] <==> k == h)
    ensures (set k | k in before && Hex(k) in [Hex(h)]) == {h}
  {
    forall k | k in before ensures Hex(k) in [Hex(h)] <==> k == h {
      if Hex(k) in [Hex(h)] { HexInjective(k, h); }
    }
  }

  lemma {:induction false} GoneCount(before: map<Hash, Text>, gone: set<Hash>)
    requires gone <= before.Keys
    ensures |before| - |before - gone| == |gone|
  {
    assert (before - gone).Keys == before.Keys - gone;
    assert before.Keys == (before.Keys - gone) + gone;
  }

  // ---------------------------------------------------------------- whole commands

  /** The commands in full, and what is done and answered then; `user` being the digest behind the mark. */
  ghost predicate Ordered(sha: Text -> Hash, norm: string -> string, files: map<string, string>,
                          looks: Command -> string, cmd: string, hashes: set<Hash>, before: map<Hash, Text>,
                          after: map<Hash, Text>, reply: Option<string>)
    requires TypedFiles(files)
  {
    && (forall x, user :: cmd == AddOrder(x, user) && !Contains(user, "AUTH:") ==>
          reply.Some? && Added(sha, norm, files, user, x, hashes, before, after, reply.value))
    && (forall x, user :: cmd == RmOrder(x, user) && !Contains(user, "AUTH:") ==>
          reply.Some? && Removed(norm, user, x, hashes, before, after, reply.value))
    && (forall x :: cmd == QueryOrder(x) && !Contains(cmd, "AUTH:") ==>
          after == before && reply == Some(looks(Query(x))))
    && (forall x :: cmd == ListOrder(x) && !Contains(cmd, "AUTH:") ==>
          after == before && reply == Some(looks(List(x))))
    && (cmd == "connect" ==> after == before && reply == Some("accept"))
    && (cmd == "peers" ==> after == before && reply == Some(looks(Peers)))
  }

  /** An addition or a removal, of which the p2p thread is told. */
  ghost predicate Note(cmd: string) {
    exists x, user :: (cmd == AddOrder(x, user) || cmd == RmOrder(x, user)) && !Contains(user, "AUTH:")
  }

  lemma {:induction false} NoteWhen(cmd: string)
    ensures Note(cmd) ==> Strip(cmd).Stripped? && (Dispatch(Strip(cmd).cmd).Add? || Dispatch(Strip(cmd).cmd).Rm?)
  {
    if x, user :| (cmd == AddOrder(x, user) || cmd == RmOrder(x, user)) && !Contains(user, "AUTH:") {
      Orders(x, user);
    }
  }

  lemma {:induction false} Unmarked()
    ensures !Contains("connect", "AUTH:") && !Contains("peers", "AUTH:")
  {
    forall i: nat ensures !At("connect", "AUTH:", i) && !At("peers", "AUTH:", i) {
      if i + 5 <= 7 { assert "connect"[i..i+5][0] == "connect"[i]; }
      if i + 5 <= 5 { assert "peers"[i..i+5][0] == "peers"[i]; }
    }
  }

  /** Stripping and dispatching come to that. */
  lemma {:induction false} OrderedBy(sha: Text -> Hash, norm: string -> string, files: map<string, string>,
                                     looks: Command -> string, cmd: string, hashes: set<Hash>,
                                     before: map<Hash, Text>, after: map<Hash, Text>, answer: string)
    requires TypedFiles(files) && Strip(cmd).Stripped?
    requires var c := Strip(cmd);
             match Dispatch(c.cmd)
             case Add(x) => Added(sha, norm, files, c.user, x, hashes, before, after, answer)
             case Rm(x) => Removed(norm, c.user, x, hashes, before, after, answer)
             case Connect => after == before && answer == "accept"
             case Other => after == before && answer == "unknown command"
             case _ => after == before && answer == looks(Dispatch(c.cmd))
    ensures Ordered(sha, norm, files, looks, cmd, hashes, before, after, Some(answer))
  {
    if !Contains(cmd, "AUTH:") { StripUnmarked(cmd); }
    Unmarked();
    forall x, user | !Contains(user, "AUTH:")
      ensures cmd == AddOrder(x, user) ==> Added(sha, norm, files, user, x, hashes, before, after, answer)
      ensures cmd == RmOrder(x, user) ==> Removed(norm, user, x, hashes, before, after, answer)
    {
      Orders(x, user);
    }
    forall x | !Contains(cmd, "AUTH:")
      ensures cmd == QueryOrder(x) ==> after == before && answer == looks(Query(x))
      ensures cmd == ListOrder(x) ==> after == before && answer == looks(List(x))
    {
      Orders(x, "");
    }
  }

  lemma {:induction false} OrderedThrown(sha: Text -> Hash, norm: string -> string, files: map<string, string>,
                                         looks: Command -> string, cmd: string, hashes: set<Hash>,
                                         before: map<Hash, Text>, after: map<Hash, Text>)
    requires TypedFiles(files) && Strip(cmd).Thrown?
    ensures Ordered(sha, norm, files, looks, cmd, hashes, before, after, None) && !Note(cmd)
  {
    if !Contains(cmd, "AUTH:") { StripUnmarked(cmd); }
    Unmarked();
    forall x, user | !Contains(user, "AUTH:") ensures cmd != AddOrder(x, user) && cmd != RmOrder(x, user) {
      Orders(x, user);
    }
  }

  // ---------------------------------------------------------------- the thread

  class DbThread {
    const db: Database
    var myHashes: set<Hash>
    /** What was sent to the p2p thread and not yet received. */
    var dbP2p: seq<Frames>

    /** Numbers are printed as they were read, digests are bytes, the database is sound, and the hash set is that of the
        database. */
    ghost predicate Valid()
      reads this, db
    {
      && PricesSettle(db.norm)
      && (forall t :: Bytes(db.sha(t)))
      && Sound(db.sha, db.norm, db.docs)
      && myHashes == db.docs.Keys
    }

    /** Start-up, on a database as it was left. */
    constructor (db: Database)
      requires PricesSettle(db.norm) && (forall t :: Bytes(db.sha(t))) && Sound(db.sha, db.norm, db.docs)
      ensures this.db == db && Valid() && dbP2p == []
    {
      this.db, myHashes, dbP2p := db, {}, [];
      new;
      UpdateHashes();
    }

    /** db_update_hashes(): the hash set is emptied and filled again. */
    method UpdateHashes()
      requires Sound(db.sha, db.norm, db.docs)
      modifies this`myHashes
      ensures myHashes == db.docs.Keys
    {
      var hashes := db.ListHash();
      SoundDigests(db.sha, db.norm, db.docs);
      myHashes := {};
      assert hashes[..0] == [];
      for i := 0 to |hashes|
        invariant myHashes == Elements(hashes[..i])
      {
        assert hashes[..i+1] == hashes[..i] + [hashes[i]];
        ElementsAppend(hashes[..i], [hashes[i]]);
        myHashes := myHashes + {hashes[i]};
      }
      assert hashes[..|hashes|] == hashes;
    }

    // -------------------------------------------------------------- for peers

    /** A look-up is answered with the documents found, in the order asked, and with their number. */
    method AnswerGET(msg: Frames)
      requires Valid() && IsToDb(msg) && msg[0] == "GET"
      modifies this`dbP2p
      ensures Valid()
      ensures dbP2p == old(dbP2p) + [ListFrames(["PUT", msg[1]], GetSeq(db.docs, msg[3..]))]
      ensures var reply := dbP2p[|old(dbP2p)|];
              IsToP2p(reply) && ToP2pOf(reply) == PUT(ToDbOf(msg).addr, Lookup(db.docs, ToDbOf(msg).hashes))
    {
      var addr, size := msg[1], msg[2];
      var hashes, rest := TakeAll(msg[3..], size);
      assert hashes == msg[3..];
      var docs := db.GetDocs(hashes);
      var reply := PushList(["PUT", addr, Decimal(|docs|)], docs);
      assert reply == ListFrames(["PUT", addr], docs);
      DocsAreReceived(docs, addr);
      GetSeqLooksUp(db.docs, hashes);
      dbP2p := dbP2p + [reply];
    }

    /** The loop that sifts the documents of an INS. */
    method Sift(msg: Frames) returns (docs: seq<Text>)
      requires IsToDb(msg) && msg[0] == "INS"
      ensures docs == Novel(db.sha, msg[2..], myHashes)
    {
      var num, rest := Stoul(msg[1]), msg[2..];
      docs := [];
      ghost var xs: seq<Text> := [];
      while num != 0
        invariant num == |rest| && msg[2..] == xs + rest && docs == Novel(db.sha, xs, myHashes)
      {
        num := num - 1;
        var doc := rest[0];
        rest := rest[1..];
        assert (xs + [doc])[..|xs|] == xs;
        xs := xs + [doc];
        if db.sha(doc) !in myHashes {
          docs := docs + [doc];
        }
      }
      assert msg[2..] == xs;
    }

    /** Documents the database does not have are stored; only if there are any is the p2p thread told. */
    method AnswerINS(msg: Frames)
      requires Valid() && IsToDb(msg) && msg[0] == "INS" && forall d :: d in ToDbOf(msg).docs ==> Readable(d)
      modifies this`dbP2p, this`myHashes, db
      ensures Valid()
      ensures var docs := Unknown(db.Form(), ToDbOf(msg).docs, old(myHashes));
              if docs == {} then db.docs == old(db.docs) && dbP2p == old(dbP2p)
              else Put(db.Form(), old(db.docs), docs, db.docs) && dbP2p == old(dbP2p) + [["NEW"]]
    {
      var docs := Sift(msg);
      NovelElements(db.Form(), msg[2..], myHashes);
      if docs != [] {
        assert docs[0] in Elements(docs);
        forall d | d in docs ensures Readable(d) {
          NovelWithin(db.sha, msg[2..], myHashes, d);
        }
        var n := db.PutDocs(docs);
        PutSeqPuts(db.Form(), old(db.docs), docs);
        SoundPut(db.sha, db.norm, old(db.docs), Elements(docs), db.docs);
        UpdateHashes();
        dbP2p := dbP2p + [["NEW"]];
      }
    }

    /** db_peer_op().  A message that begins with neither word changes nothing.  What it is sent to store is an
        advertisement in every run of the network (Theorems.InsertsLegible), so reading it is defined. */
    method PeerOp(msg: Frames)
      requires Valid() && msg != [] && (msg[0] in {"GET", "INS"} ==> IsToDb(msg))
      requires msg[0] == "INS" ==> forall d :: d in ToDbOf(msg).docs ==> Readable(d)
      modifies this`dbP2p, this`myHashes, db
      ensures Valid()
      ensures msg[0] != "INS" ==> db.docs == old(db.docs)
      ensures msg[0] !in {"GET", "INS"} ==> dbP2p == old(dbP2p)
      ensures msg[0] == "GET" ==>
                && |dbP2p| == |old(dbP2p)| + 1 && old(dbP2p) <= dbP2p && IsToP2p(dbP2p[|old(dbP2p)|])
                && ToP2pOf(dbP2p[|old(dbP2p)|]) == PUT(ToDbOf(msg).addr, Lookup(db.docs, ToDbOf(msg).hashes))
      ensures msg[0] == "INS" ==>
                var docs := Unknown(db.Form(), ToDbOf(msg).docs, old(myHashes));
                if docs == {} then db.docs == old(db.docs) && dbP2p == old(dbP2p)
                else Put(db.Form(), old(db.docs), docs, db.docs) && dbP2p == old(dbP2p) + [["NEW"]]
    {
      if msg[0] == "GET" {
        AnswerGET(msg);
      } else if msg[0] == "INS" {
        AnswerINS(msg);
      }
    }

    // -------------------------------------------------------------- for clients

    /** db_add() */
    method DbAdd(user: string, arg: string, files: map<string, string>) returns (reply: string)
      requires Valid() && TypedFiles(files)
      modifies db
      ensures Added(db.sha, db.norm, files, user, arg, myHashes, old(db.docs), db.docs, reply)
      ensures Sound(db.sha, db.norm, db.docs)
    {
      var cmd := Trim(arg);
      JsonWord(cmd);
      if Char(cmd, 0) == 'j' && Char(cmd, 1) == 's' && Char(cmd, 2) == 'o' && Char(cmd, 3) == 'n' {
        cmd := Erase(cmd, 5);
        var input := if cmd in files then Some(files[cmd]) else None;
        if cmd in files {
          assert TypedFile(files[cmd]);
          SoundAdd(db.sha, db.norm, db.docs, user, files[cmd], myHashes);
        }
        reply := db.IndexDb(user, cmd, input, myHashes);
      } else {
        reply := "unknown cmd";
      }
    }

    method RmTokens(user: string, h: seq<string>) returns (reply: string, ghost gone: set<Hash>)
      requires Valid()
      modifies db
      ensures Gone(db.norm, user, Elements(h), myHashes, old(db.docs), db.docs, reply, gone)
      ensures Sound(db.sha, db.norm, db.docs)
    {
      SoundReadable(db.sha, db.norm, db.docs, {});
      SoundKeys(db.sha, db.norm, db.docs);
      reply, gone := db.RmDocs(user, Elements(h), myHashes);
      SoundReadable(db.sha, db.norm, old(db.docs), gone);
    }

    /** db_rm() */
    method DbRm(user: string, arg: string) returns (reply: string)
      requires Valid()
      modifies db
      ensures Removed(db.norm, user, arg, myHashes, old(db.docs), db.docs, reply)
      ensures Sound(db.sha, db.norm, db.docs)
    {
      var cmd := Trim(arg);
      if cmd != "" {
        var h := Tokenize(cmd);
        ghost var gone;
        reply, gone := RmTokens(user, h);
        RemovedBy(db.norm, user, arg, myHashes, old(db.docs), db.docs, reply, gone);
      } else {
        reply := "unknown cmd";
      }
    }

    /** The branches of db_client_op(). */
    method Perform(what: Command, user: string, files: map<string, string>, looks: Command -> string)
      returns (answer: string)
      requires Valid() && TypedFiles(files)
      modifies this`myHashes, this`dbP2p, db
      ensures Valid()
      ensures match what
              case Add(x) => Added(db.sha, db.norm, files, user, x, old(myHashes), old(db.docs), db.docs, answer)
              case Rm(x) => Removed(db.norm, user, x, old(myHashes), old(db.docs), db.docs, answer)
              case Connect => db.docs == old(db.docs) && answer == "accept"
              case Other => db.docs == old(db.docs) && answer == "unknown command"
              case _ => db.docs == old(db.docs) && answer == looks(what)
      ensures if what.Add? || what.Rm? then dbP2p == old(dbP2p) + [["NEW"]]
              else dbP2p == old(dbP2p) && myHashes == old(myHashes)
    {
      match what {
      case Add(arg) =>
        answer := DbAdd(user, arg, files);
        UpdateHashes();
        dbP2p := dbP2p + [["NEW"]];
      case Rm(arg) =>
        answer := DbRm(user, arg);
        UpdateHashes();
        dbP2p := dbP2p + [["NEW"]];
      case Connect =>
        answer := "accept";
      case Other =>
        answer := "unknown command";
      case _ =>
        answer := looks(what);
      }
    }

    /** db_client_op(): `files` are the files that can be opened, `looks` what the commands answer that only look.
        The mark at the very beginning of a command raises an exception, if there is no other. */
    method ClientOp(cmd: string, files: map<string, string>, looks: Command -> string) returns (reply: Option<string>)
      requires Valid() && TypedFiles(files)
      modifies this`myHashes, this`dbP2p, db
      ensures Valid()
      ensures reply.None? <==> OnlyAtFront(cmd)
      ensures Ordered(db.sha, db.norm, files, looks, cmd, old(myHashes), old(db.docs), db.docs, reply)
      ensures Note(cmd) ==> dbP2p == old(dbP2p) + [["NEW"]]
      ensures var c := Strip(cmd);
              if c.Stripped? && Dispatch(c.cmd).Add? then
                && Added(db.sha, db.norm, files, c.user, Dispatch(c.cmd).arg, old(myHashes), old(db.docs), db.docs,
                         reply.value)
                && dbP2p == old(dbP2p) + [["NEW"]]
              else if c.Stripped? && Dispatch(c.cmd).Rm? then
                && Removed(db.norm, c.user, Dispatch(c.cmd).arg, old(myHashes), old(db.docs), db.docs, reply.value)
                && dbP2p == old(dbP2p) + [["NEW"]]
              else db.docs == old(db.docs) && myHashes == old(myHashes) && dbP2p == old(dbP2p)
      ensures var c := Strip(cmd);
              c.Stripped? ==>
                match Dispatch(c.cmd)
                case Connect => reply.value == "accept"
                case Other => reply.value == "unknown command"
                case Query(_) => reply.value == looks(Dispatch(c.cmd))
                case List(_) => reply.value == looks(Dispatch(c.cmd))
                case Peers => reply.value == looks(Dispatch(c.cmd))
                case _ => true
    {
      var c := Strip(cmd);
      if c.Thrown? {
        OrderedThrown(db.sha, db.norm, files, looks, cmd, myHashes, db.docs, db.docs);
        return None;
      }
      NoteWhen(cmd);
      var answer := Perform(Dispatch(c.cmd), c.user, files, looks);
      OrderedBy(db.sha, db.norm, files, looks, cmd, old(myHashes), old(db.docs), db.docs, answer);
      reply := Some(answer);
    }
  }
}
