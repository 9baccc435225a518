/** Users whose documents keep the network from coming to rest. */
module LeadingNul {
  import opened Documents
  import opened Messages
  import opened Gossip
  import opened NodeInvariant
  import opened Safety
  import opened Store
  import opened Convergence
  import opened Termination
  import opened Rest
  import opened TwoDaemons
  import opened Occurrences

  lemma EnteredOrphan(sha: Text -> Hash, norm: string -> string, b: nat -> System, k: nat, x: Addr, d: Doc)
    requires Behaviour(FormatOf(sha, norm), b) && x in b(k).nodes
    requires Printable(norm, d) && d.author != "" && d.author[0] == '\0'
    requires Serialize(d) in b(k).nodes[x].store.Values
    ensures sha(Serialize(d)) in Orphaned(FormatOf(sha, norm), b(k).nodes[x])
  {
    var f, n := FormatOf(sha, norm), b(k).nodes[x];
    var run := RunUpTo(f, b, k);
    RunSafe(f, run);
    assert NodeInv(f, x, n);
    var h :| h in n.store && n.store[h] == Serialize(d);
    SerializedIsCanonical(norm, d);
    assert f.sha(n.store[h]) == h;
  }

  /** Two daemons of one connected part, each with a document of a user whose digest begins with NUL that the other
      lacks, never come to rest, whatever is in the documents and whatever happens. */
  lemma LeadingNulNeverAtRest(sha: Text -> Hash, norm: string -> string, b: nat -> System, k: nat,
                              x: Addr, d: Doc, y: Addr, e: Doc)
    requires Behaviour(FormatOf(sha, norm), b) && SilentFrom(FormatOf(sha, norm), b, k)
    requires FormatOf(sha, norm).Discerning(Injected(b(k), b(0).nodes.Keys))
    requires x in b(k).nodes && y in b(k).nodes && y in Component(b(0), x)
    requires Printable(norm, d) && d.author != "" && d.author[0] == '\0'
    requires Printable(norm, e) && e.author != "" && e.author[0] == '\0'
    requires Serialize(d) in b(k).nodes[x].store.Values && sha(Serialize(d)) !in b(k).nodes[y].store
    requires Serialize(e) in b(k).nodes[y].store.Values && sha(Serialize(e)) !in b(k).nodes[x].store
    ensures forall j: nat :: j >= k ==> !Quiescent(b(j))
  {
    EnteredOrphan(sha, norm, b, k, x, d);
    EnteredOrphan(sha, norm, b, k, y, e);
    NeverAtRest(FormatOf(sha, norm), b, k, x, y, sha(Serialize(d)), sha(Serialize(e)));
  }

  lemma EntryIsOrphan(sha: Text -> Hash, norm: string -> string, d: Doc)
    requires Printable(norm, d) && d.author != "" && d.author[0] == '\0'
    ensures FormatOf(sha, norm).Settled(Serialize(d)) && FormatOf(sha, norm).author(Serialize(d)) == ""
  {
    SerializedIsCanonical(norm, d);
    ReadSerialized(norm, d);
  }

  /** It does happen: any two daemons, started with any such documents, if they have different digests. */
  lemma LeadingNulHappens(sha: Text -> Hash, norm: string -> string, x: Addr, d: Doc, y: Addr, e: Doc)
    returns (b: nat -> System)
    requires x != y && sha(Serialize(d)) != sha(Serialize(e))
    requires Printable(norm, d) && d.author != "" && d.author[0] == '\0'
    requires Printable(norm, e) && e.author != "" && e.author[0] == '\0'
    ensures Behaviour(FormatOf(sha, norm), b) && SilentFrom(FormatOf(sha, norm), b, 0)
    ensures b(0) == Starting(x, map[sha(Serialize(d)) := Serialize(d)], y, map[sha(Serialize(e)) := Serialize(e)])
    ensures forall j: nat :: !Quiescent(b(j))
  {
    EntryIsOrphan(sha, norm, d);
    EntryIsOrphan(sha, norm, e);
    b := GossipUnending(FormatOf(sha, norm), x, Serialize(d), y, Serialize(e));
  }

  /** And a daemon that starts with nothing never gets such a document: at rest the two databases differ. */
  lemma LeadingNulDiffers(sha: Text -> Hash, norm: string -> string, x: Addr, d: Doc, y: Addr)
    returns (b: nat -> System, j: nat)
    requires x != y && Printable(norm, d) && d.author != "" && d.author[0] == '\0'
    ensures Behaviour(FormatOf(sha, norm), b) && SilentFrom(FormatOf(sha, norm), b, 0)
    ensures b(0) == Starting(x, map[sha(Serialize(d)) := Serialize(d)], y, map[]) && y in Component(b(0), x)
    ensures Quiescent(b(j)) && x in b(j).nodes && y in b(j).nodes && b(j).nodes[x].store != b(j).nodes[y].store
  {
    EntryIsOrphan(sha, norm, d);
    b, j := DatabasesDiffer(FormatOf(sha, norm), x, Serialize(d), y);
  }
}
