/** String utilities of the client and the daemon: trimming, splitting into words, counting words, and the C string
    inside a string. */
module StringUtil {

  predicate IsSpace(c: char) {
    c == ' ' || c == '\n' || c == '\r' || c == '\t' || c == '\U{000C}' || c == '\U{000B}'
  }

  /** Space, line feed, carriage return, tab, form feed and vertical tab. */
  lemma {:induction false} SpaceCodes(c: char)
    ensures IsSpace(c) <==> c as int in {0x20, 0x0A, 0x0D, 0x09, 0x0C, 0x0B}
  {
    assert ' ' as int == 0x20 && '\n' as int == 0x0A && '\r' as int == 0x0D && '\t' as int == 0x09;
  }

  predicate NulFree(s: string) {
    '\0' !in s
  }

  /** What a reader of NUL-terminated strings sees of `s`. */
  function CStr(s: string): (r: string)
    ensures NulFree(r) && r <= s
    ensures r == s <==> NulFree(s)
    ensures |r| < |s| ==> s[|r|] == '\0'
  {
    if s == [] || s[0] == '\0' then [] else [s[0]] + CStr(s[1..])
  }

  // ---------------------------------------------------------------- trim

  function TrimLeft(s: string): string {
    if s != [] && IsSpace(s[0]) then TrimLeft(s[1..]) else s
  }

  function TrimRight(s: string): string {
    if s != [] && IsSpace(s[|s|-1]) then TrimRight(s[..|s|-1]) else s
  }

  function Trimmed(s: string): string {
    TrimRight(TrimLeft(s))
  }

  ghost predicate Blank(s: string) {
    forall c :: c in s ==> IsSpace(c)
  }

  /** Nothing to trim. */
  predicate Tight(s: string) {
    s == [] || (!IsSpace(s[0]) && !IsSpace(s[|s|-1]))
  }

  lemma {:induction false} TrimLeftSplits(s: string) returns (l: string)
    ensures s == l + TrimLeft(s) && Blank(l)
    ensures TrimLeft(s) == [] || !IsSpace(TrimLeft(s)[0])
  {
    if s != [] && IsSpace(s[0]) {
      l := TrimLeftSplits(s[1..]);
      l := [s[0]] + l;
    } else {
      l := [];
    }
  }

  lemma {:induction false} TrimRightSplits(s: string) returns (r: string)
    ensures s == TrimRight(s) + r && Blank(r)
    ensures TrimRight(s) == [] || !IsSpace(TrimRight(s)[|TrimRight(s)|-1])
  {
    if s != [] && IsSpace(s[|s|-1]) {
      r := TrimRightSplits(s[..|s|-1]);
      r := r + [s[|s|-1]];
    } else {
      r := [];
    }
  }

  /** Trimming takes white space off both ends, all of it and nothing else. */
  lemma {:induction false} TrimSplits(s: string) returns (l: string, r: string)
    ensures s == l + Trimmed(s) + r && Blank(l) && Blank(r) && Tight(Trimmed(s))
  {
    l := TrimLeftSplits(s);
    r := TrimRightSplits(TrimLeft(s));
  }

  /** No other way of taking white space off both ends of `s` leaves a string with none at either end. */
  lemma {:induction false} TrimUnique(l: string, t: string, r: string)
    requires Blank(l) && Blank(r) && Tight(t)
    ensures Trimmed(l + t + r) == t
  {
    if l != [] {
      assert (l + t + r)[1..] == l[1..] + t + r;
      TrimUnique(l[1..], t, r);
    } else if t == [] {
      BlankTrims(r);
      assert l + t + r == r;
    } else {
      assert l + t + r == t + r;
      TrimRightBlank(t, r);
    }
  }

  lemma {:induction false} BlankTrims(r: string)
    requires Blank(r)
    ensures TrimLeft(r) == []
  {
    if r != [] { BlankTrims(r[1..]); }
  }

  lemma {:induction false} TrimRightBlank(t: string, r: string)
    requires Blank(r) && t != [] && Tight(t)
    ensures TrimRight(t + r) == t
  {
    if r == [] {
      assert t + r == t;
    } else {
      assert (t + r)[..|t + r|-1] == t + r[..|r|-1];
      TrimRightBlank(t, r[..|r|-1]);
    }
  }

  /** trim(): the first and the last character that is not white space are looked for, one after the other. */
  method Trim(s: string) returns (t: string)
    ensures t == Trimmed(s)
  {
    var p := 0;
    while p < |s| && IsSpace(s[p])
      invariant 0 <= p <= |s| && TrimLeft(s) == TrimLeft(s[p..])
    {
      p := p + 1;
    }
    t := s[p..];
    ghost var left := t;
    p := |t|;
    assert t[..p] == t;
    while p > 0 && IsSpace(t[p-1])
      invariant 0 <= p <= |t| && TrimRight(t) == TrimRight(t[..p])
    {
      assert t[..p][..p-1] == t[..p-1];
      p := p - 1;
    }
    t := t[..p];
  }

  // ---------------------------------------------------------------- words

  /** `s` cut at every white-space character. */
  function Pieces(s: string): (r: seq<string>)
    ensures r != []
  {
    if s == [] then [[]]
    else
      var rest := Pieces(s[1..]);
      if IsSpace(s[0]) then [[]] + rest else [[s[0]] + rest[0]] + rest[1..]
  }

  /** The pieces, without the last if it is what is left after a final white-space character. */
  function Tokens(s: string): seq<string> {
    if s == [] then []
    else
      var p := Pieces(s);
      if p[|p|-1] == [] then p[..|p|-1] else p
  }

  function NonEmpty(tokens: seq<string>): seq<string> {
    if tokens == [] then []
    else (if tokens[0] == [] then [] else [tokens[0]]) + NonEmpty(tokens[1..])
  }

  function Concat(tokens: seq<string>): string {
    if tokens == [] then [] else tokens[0] + Concat(tokens[1..])
  }

  function WithoutSpace(s: string): string {
    if s == [] then []
    else (if IsSpace(s[0]) then [] else [s[0]]) + WithoutSpace(s[1..])
  }

  /** tokenize(): the text between one match of a white-space character and the next, and what follows the last
      match unless it is empty. */
  method Tokenize(s: string) returns (tokens: seq<string>)
    ensures tokens == Tokens(s)
  {
    if s == [] { return []; }
    tokens := [];
    var start, i := 0, 0;
    CutStart(s);
    while i < |s|
      invariant 0 <= start <= i <= |s|
      invariant Cut(s, tokens, start, i)
    {
      CutStep(s, tokens, start, i);
      if IsSpace(s[i]) {
        tokens := tokens + [s[start..i]];
        start := i + 1;
      }
      i := i + 1;
    }
    CutEnd(s, tokens, start);
    LastPiece(s, tokens, start);
    if start < |s| {
      tokens := tokens + [s[start..]];
    }
  }

  /** The first `i` characters of `s` are cut into `tokens` and a piece begun at `start`. */
  ghost predicate Cut(s: string, tokens: seq<string>, start: nat, i: nat)
    requires start <= i <= |s|
  {
    Pieces(s) == Stitch(tokens, s[start..i], Pieces(s[i..]))
  }

  lemma {:induction false} CutStart(s: string)
    ensures Cut(s, [], 0, 0)
  {
    assert s[0..] == s;
    StitchSteps([], [], ' ', Pieces(s));
  }

  lemma {:induction false} CutStep(s: string, tokens: seq<string>, start: nat, i: nat)
    requires start <= i < |s| && Cut(s, tokens, start, i)
    ensures IsSpace(s[i]) ==> Cut(s, tokens + [s[start..i]], i + 1, i + 1)
    ensures !IsSpace(s[i]) ==> Cut(s, tokens, start, i + 1)
  {
    assert s[i..][1..] == s[i+1..] && s[i+1..i+1] == [] && s[start..i+1] == s[start..i] + [s[i]];
    StitchSteps(tokens, s[start..i], s[i], Pieces(s[i+1..]));
  }

  lemma {:induction false} CutEnd(s: string, tokens: seq<string>, start: nat)
    requires start <= |s| && Cut(s, tokens, start, |s|)
    ensures Pieces(s) == tokens + [s[start..]]
  {
    assert s[|s|..] == [] && s[start..|s|] == s[start..];
    StitchSteps(tokens, s[start..], ' ', [[]]);
  }

  lemma {:induction false} LastPiece(s: string, tokens: seq<string>, start: nat)
    requires s != [] && start <= |s| && Pieces(s) == tokens + [s[start..]]
    ensures Tokens(s) == if start < |s| then tokens + [s[start..]] else tokens
  {
    assert (tokens + [s[start..]])[..|tokens|] == tokens;
  }

  /** Finished pieces, then one begun, completed by the first of the rest. */
  ghost function Stitch(done: seq<string>, begun: string, rest: seq<string>): seq<string>
    requires rest != []
  {
    done + [begun + rest[0]] + rest[1..]
  }

  lemma {:induction false} StitchSteps(done: seq<string>, begun: string, c: char, rest: seq<string>)
    requires rest != []
    ensures Stitch([], [], rest) == rest
    ensures Stitch(done, begun, [[]]) == done + [begun]
    ensures Stitch(done, begun, [[]] + rest) == Stitch(done + [begun], [], rest)
    ensures Stitch(done, begun, [[c] + rest[0]] + rest[1..]) == Stitch(done, begun + [c], rest)
  {
    assert rest == [rest[0]] + rest[1..] && [] + rest[0] == rest[0] && begun + [] == begun;
    assert begun + ([c] + rest[0]) == begun + [c] + rest[0];
  }

  lemma {:induction false} NonEmptyAppend(a: seq<string>, b: seq<string>)
    ensures NonEmpty(a + b) == NonEmpty(a) + NonEmpty(b)
  {
    if a == [] {
      assert a + b == b;
    } else {
      assert (a + b)[1..] == a[1..] + b;
      NonEmptyAppend(a[1..], b);
    }
  }

  lemma {:induction false} ConcatAppend(a: seq<string>, b: seq<string>)
    ensures Concat(a + b) == Concat(a) + Concat(b)
  {
    if a == [] {
      assert a + b == b;
    } else {
      assert (a + b)[1..] == a[1..] + b;
      ConcatAppend(a[1..], b);
    }
  }

  /** Leaving out the last empty piece changes neither the words nor the letters. */
  lemma {:induction false} TokensArePieces(s: string)
    ensures NonEmpty(Tokens(s)) == NonEmpty(Pieces(s)) && Concat(Tokens(s)) == Concat(Pieces(s))
  {
    var p := Pieces(s);
    if s != [] && p[|p|-1] == [] {
      assert p == p[..|p|-1] + [[]];
      NonEmptyAppend(p[..|p|-1], [[]]);
      ConcatAppend(p[..|p|-1], [[]]);
    }
  }

  lemma {:induction false} PiecesLetters(s: string)
    ensures Concat(Pieces(s)) == WithoutSpace(s)
  {
    if s != [] {
      PiecesLetters(s[1..]);
      var rest := Pieces(s[1..]);
      if !IsSpace(s[0]) {
        assert Concat(Pieces(s)) == [s[0]] + rest[0] + Concat(rest[1..]);
      }
    }
  }

  /** The words in order, put together, are the string with its white space removed. */
  lemma {:induction false} TokensLetters(s: string)
    ensures Concat(Tokens(s)) == WithoutSpace(s)
  {
    TokensArePieces(s);
    PiecesLetters(s);
  }

  /** No word has white space in it. */
  lemma {:induction false} PiecesSolid(s: string)
    ensures forall w, c :: w in Pieces(s) && c in w ==> !IsSpace(c)
  {
    if s != [] {
      PiecesSolid(s[1..]);
      var rest := Pieces(s[1..]);
      assert rest == [rest[0]] + rest[1..];
    }
  }

  /** Words with one white-space character after each but the last. */
  function Spaced(words: seq<string>, gaps: string): string
    requires |words| == |gaps| + 1
  {
    if gaps == [] then words[0] else words[0] + [gaps[0]] + Spaced(words[1..], gaps[1..])
  }

  lemma {:induction false} PiecesFirst(w: string, s: string)
    requires forall c :: c in w ==> !IsSpace(c)
    ensures Pieces(w + s) == [w + Pieces(s)[0]] + Pieces(s)[1..]
  {
    if w == [] {
      assert w + s == s && w + Pieces(s)[0] == Pieces(s)[0];
    } else {
      assert (w + s)[1..] == w[1..] + s && w[0] in w;
      assert forall c :: c in w[1..] ==> c in w;
      PiecesFirst(w[1..], s);
      assert [w[0]] + (w[1..] + Pieces(s)[0]) == w + Pieces(s)[0];
    }
  }

  lemma {:induction false} GapPieces(w: string, c: char, more: string)
    requires IsSpace(c) && forall c :: c in w ==> !IsSpace(c)
    ensures Pieces(w + [c] + more) == [w] + Pieces(more)
  {
    assert ([c] + more)[1..] == more;
    PiecesFirst(w, [c] + more);
    assert w + ([c] + more) == w + [c] + more && w + [] == w;
  }

  /** Any words without white space, spaced by any white space, are the pieces found, in their order, empty ones
      included. */
  lemma {:induction false} PiecesUnique(words: seq<string>, gaps: string)
    requires |words| == |gaps| + 1 && (forall w, c :: w in words && c in w ==> !IsSpace(c))
    requires forall c :: c in gaps ==> IsSpace(c)
    ensures Pieces(Spaced(words, gaps)) == words
  {
    if gaps == [] {
      PiecesFirst(words[0], []);
      assert words[0] + [] == words[0] && words == [words[0]];
    } else {
      var more := Spaced(words[1..], gaps[1..]);
      assert forall w :: w in words[1..] ==> w in words;
      assert forall c :: c in gaps[1..] ==> c in gaps;
      PiecesUnique(words[1..], gaps[1..]);
      assert gaps[0] in gaps && words[0] in words;
      GapPieces(words[0], gaps[0], more);
      assert words == [words[0]] + words[1..];
    }
  }

  /** Those are the tokens, but that an empty last one is dropped. */
  lemma {:induction false} TokensUnique(words: seq<string>, gaps: string)
    requires |words| == |gaps| + 1 && (forall w, c :: w in words && c in w ==> !IsSpace(c))
    requires forall c :: c in gaps ==> IsSpace(c)
    ensures Tokens(Spaced(words, gaps)) == if words[|words|-1] == "" then words[..|words|-1] else words
  {
    PiecesUnique(words, gaps);
    if Spaced(words, gaps) == [] {
      assert words == [[]];
    }
  }

  /** The non-empty ones are as many as there are places with one. */
  lemma {:induction false} NonEmptyCount(tokens: seq<string>)
    ensures |NonEmpty(tokens)| == |set i | 0 <= i < |tokens| && tokens[i] != ""|
  {
    if tokens == [] {
    } else {
      var front, t := tokens[..|tokens|-1], tokens[|tokens|-1];
      NonEmptyCount(front);
      assert tokens == front + [t];
      NonEmptyAppend(front, [t]);
      var places := set i | 0 <= i < |front| && front[i] != "";
      assert (set i | 0 <= i < |tokens| && tokens[i] != "") == places + if t == "" then {} else {|front|};
    }
  }

  /** The words begun in `s`; `inSpaces` says whether the text before it ended in white space. */
  function Begun(s: string, inSpaces: bool): nat {
    if s == [] then 0
    else if IsSpace(s[0]) then Begun(s[1..], true)
    else (if inSpaces then 1 else 0) + Begun(s[1..], false)
  }

  lemma {:induction false} BegunPieces(s: string)
    ensures Begun(s, true) == |NonEmpty(Pieces(s))|
    ensures Begun(s, false) == |NonEmpty(Pieces(s)[1..])|
  {
    if s != [] {
      BegunPieces(s[1..]);
      assert Pieces(s)[1..] == if IsSpace(s[0]) then Pieces(s[1..]) else Pieces(s[1..])[1..];
    }
  }

  lemma {:induction false} BegunStep(c: char, t: string, inSpaces: bool)
    ensures Begun([c] + t, inSpaces) ==
            if IsSpace(c) then Begun(t, true) else (if inSpaces then 1 else 0) + Begun(t, false)
  {
    assert ([c] + t)[1..] == t;
  }

  lemma {:induction false} NextChar(s: string, i: nat)
    requires i < |s| && s[i] != '\0'
    ensures CStr(s[i..]) == [s[i]] + CStr(s[i+1..])
  {
    assert s[i..][1..] == s[i+1..];
  }

  /** The words begun from position `i` up to the first NUL. */
  function BegunFrom(s: string, i: nat, inSpaces: bool): nat
    requires i <= |s|
  {
    Begun(CStr(s[i..]), inSpaces)
  }

  lemma {:induction false} BegunTurn(s: string, i: nat, inSpaces: bool)
    requires i < |s| && s[i] != '\0'
    ensures BegunFrom(s, i, inSpaces) ==
            if IsSpace(s[i]) then BegunFrom(s, i + 1, true)
            else (if inSpaces then 1 else 0) + BegunFrom(s, i + 1, false)
  {
    NextChar(s, i);
    BegunStep(s[i], CStr(s[i+1..]), inSpaces);
  }

  lemma {:induction false} AllBegun(s: string)
    ensures BegunFrom(s, 0, true) == Begun(CStr(s), true)
  {
    assert s[0..] == s;
  }

  lemma {:induction false} NothingBegun(s: string, i: nat, inSpaces: bool)
    requires i <= |s| && (i == |s| || s[i] == '\0')
    ensures BegunFrom(s, i, inSpaces) == 0
  {
  }

  lemma {:induction false} BegunWords(s: string)
    ensures Begun(s, true) == |NonEmpty(Tokens(s))|
  {
    BegunPieces(s);
    TokensArePieces(s);
  }

  /** The loop of wordcount(): the characters up to the first NUL are looked at one by one. */
  method CountBegun(s: string) returns (numWords: nat)
    ensures numWords == Begun(CStr(s), true)
  {
    var i, inSpaces := 0, true;
    numWords := 0;
    AllBegun(s);
    while i < |s| && s[i] != '\0'
      invariant 0 <= i <= |s|
      invariant BegunFrom(s, 0, true) == numWords + BegunFrom(s, i, inSpaces)
    {
      BegunTurn(s, i, inSpaces);
      if IsSpace(s[i]) {
        inSpaces := true;
      } else if inSpaces {
        numWords := numWords + 1;
        inSpaces := false;
      }
      i := i + 1;
    }
    NothingBegun(s, i, inSpaces);
  }

  /** wordcount() */
  method WordCount(s: string) returns (numWords: nat)
    ensures numWords == |NonEmpty(Tokens(CStr(s)))|
    ensures NulFree(s) ==> numWords == |NonEmpty(Tokens(s))|
  {
    numWords := CountBegun(s);
    BegunWords(CStr(s));
  }
}
