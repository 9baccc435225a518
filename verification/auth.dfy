/** How a client's identity travels with its commands: the client appends it, the daemon cuts it off again, and
    only then looks at what the command is. */
module Auth {
  import opened Options
  import opened StringUtil

  /** `p` stands in `s` at position `i`. */
  predicate At(s: string, p: string, i: nat) {
    i + |p| <= |s| && s[i..i+|p|] == p
  }

  /** std::string::find says there is such a position. */
  ghost predicate Contains(s: string, p: string) {
    exists i: nat :: At(s, p, i)
  }

  method Find(s: string, p: string) returns (found: bool)
    ensures found <==> Contains(s, p)
  {
    var i: nat := 0;
    while i + |p| <= |s|
      invariant i <= |s| + 1
      invariant forall j: nat :: j < i ==> !At(s, p, j)
    {
      if At(s, p, i) { return true; }
      i := i + 1;
    }
    return false;
  }

  /** std::string::rfind: the last position. */
  function RFind(s: string, p: string, from: nat): (u: Option<nat>)
    ensures u.Some? ==> At(s, p, u.value) && u.value <= from && forall j: nat :: u.value < j <= from ==> !At(s, p, j)
    ensures u.None? ==> forall j: nat :: j <= from ==> !At(s, p, j)
  {
    if At(s, p, from) then Some(from)
    else if from == 0 then None
    else RFind(s, p, from - 1)
  }

  const MARK: string := "AUTH:"
  const SUFFIX: string := " AUTH:"

  // ---------------------------------------------------------------- client

  ghost predicate NeedsAuth(cmd: string) {
    Contains(cmd, "db") && (Contains(cmd, "add") || Contains(cmd, "rm"))
  }

  /** What the client sends, if anything; `wallet` is the digest of the address of the wallet in use. */
  ghost function Sent(cmd: string, wallet: Option<string>): Option<string> {
    var c := Trimmed(cmd);
    if !NeedsAuth(c) then Some(c)
    else if wallet.None? then None
    else Some(c + SUFFIX + wallet.value)
  }

  lemma {:induction false} ContainsIff(s: string, p: string)
    ensures Contains(s, p) <==> exists a, b :: s == a + p + b
  {
    if i: nat :| At(s, p, i) {
      assert s == s[..i] + p + s[i+|p|..];
    }
    if a, b :| s == a + p + b {
      assert s[|a|..|a|+|p|] == p;
      assert At(s, p, |a|);
    }
  }

  /** Word for word: a command that mentions db and add or rm is sent with the user's digest behind " AUTH:", or not
      at all without one; any other is sent as it is. */
  lemma {:induction false} SentExactly(cmd: string, wallet: Option<string>)
    ensures var t := Trimmed(cmd);
            var signed := (exists a, b :: t == a + "db" + b) &&
                          ((exists a, b :: t == a + "add" + b) || (exists a, b :: t == a + "rm" + b));
            Sent(cmd, wallet) == if !signed then Some(t)
                                 else if wallet == None then None
                                 else Some(t + " AUTH:" + wallet.value)
  {
    var t := Trimmed(cmd);
    ContainsIff(t, "db");
    ContainsIff(t, "add");
    ContainsIff(t, "rm");
  }

  /** send_cmd(), up to the sending. */
  method SendCmd(cmd: string, wallet: Option<string>) returns (sent: Option<string>)
    ensures sent == Sent(cmd, wallet)
  {
    var c := Trim(cmd);
    var db := Find(c, "db");
    var add := Find(c, "add");
    var rm := Find(c, "rm");
    if db && (add || rm) {
      if wallet.None? { return None; }
      c := c + SUFFIX + wallet.value;
    }
    return Some(c);
  }

  // ---------------------------------------------------------------- daemon

  /** There is a mark at the very beginning, and no other. */
  ghost predicate OnlyAtFront(cmd: string) {
    At(cmd, MARK, 0) && forall j: nat :: j > 0 ==> !At(cmd, MARK, j)
  }

  /** A command without its mark, and the user; or the exception that the last mark raises at the very beginning. */
  datatype Stripped = Stripped(cmd: string, user: string) | Thrown

  function Strip(cmd: string): (r: Stripped)
    ensures r.Thrown? <==> OnlyAtFront(cmd)
  {
    match RFind(cmd, MARK, |cmd|)
    case None => Stripped(cmd, "")
    case Some(u) => if u == 0 then Thrown else Stripped(cmd[..u-1], cmd[u+5..])
  }

  /** Reading one past the end of a C++ string gives NUL. */
  function Char(s: string, i: nat): char {
    if i < |s| then s[i] else '\0'
  }

  function Erase(s: string, n: nat): string {
    if n <= |s| then s[n..] else ""
  }

  datatype Command =
    | Connect
    | Query(q: string)
    | Add(arg: string)
    | Rm(arg: string)
    | List(arg: string)
    | Peers
    | Other

  /** What db_client_op takes a command without mark for. */
  function Dispatch(cmd: string): Command {
    if cmd == "connect" then Connect
    else if Char(cmd, 0) == 'd' && Char(cmd, 1) == 'b' then
      var q := Erase(cmd, 3);
      if Char(q, 0) == 'q' && Char(q, 1) == 'u' && Char(q, 2) == 'e' && Char(q, 3) == 'r' && Char(q, 4) == 'y'
      then Query(Erase(q, 6))
      else if Char(q, 0) == 'a' && Char(q, 1) == 'd' && Char(q, 2) == 'd' then Add(Erase(q, 4))
      else if Char(q, 0) == 'r' && Char(q, 1) == 'm' then Rm(Erase(q, 3))
      else if Char(q, 0) == 'l' && Char(q, 1) == 'i' && Char(q, 2) == 's' && Char(q, 3) == 't' then List(Erase(q, 5))
      else Other
    else if cmd == "peers" then Peers
    else Other
  }

  lemma {:induction false} DispatchAt(cmd: string, word: string, i: nat)
    requires '\0' !in word && word != []
    ensures At(cmd, word, i) <==> forall k: nat {:trigger word[k]} :: k < |word| ==> Char(cmd, i + k) == word[k]
  {
    if forall k: nat {:trigger word[k]} :: k < |word| ==> Char(cmd, i + k) == word[k] {
      assert Char(cmd, i + (|word| - 1)) == word[|word|-1];
      assert word[|word|-1] in word;
      assert cmd[i..i+|word|] == word;
    }
  }

  lemma {:induction false} AtDb(cmd: string)
    ensures At(cmd, "db", 0) <==> Char(cmd, 0) == 'd' && Char(cmd, 1) == 'b'
  {
    var w := "db";
    assert w[0] == 'd' && w[1] == 'b';
    DispatchAt(cmd, w, 0);
  }

  lemma {:induction false} AtQuery(cmd: string)
    ensures var q := Erase(cmd, 3);
            At(cmd, "query", 3) <==>
            Char(q, 0) == 'q' && Char(q, 1) == 'u' && Char(q, 2) == 'e' && Char(q, 3) == 'r' && Char(q, 4) == 'y'
  {
    var w := "query";
    assert w[0] == 'q' && w[1] == 'u' && w[2] == 'e' && w[3] == 'r' && w[4] == 'y';
    DispatchAt(cmd, w, 3);
  }

  lemma {:induction false} AtAdd(cmd: string)
    ensures var q := Erase(cmd, 3); At(cmd, "add", 3) <==> Char(q, 0) == 'a' && Char(q, 1) == 'd' && Char(q, 2) == 'd'
  {
    var w := "add";
    assert w[0] == 'a' && w[1] == 'd' && w[2] == 'd';
    DispatchAt(cmd, w, 3);
  }

  lemma {:induction false} AtRm(cmd: string)
    ensures var q := Erase(cmd, 3); At(cmd, "rm", 3) <==> Char(q, 0) == 'r' && Char(q, 1) == 'm'
  {
    var w := "rm";
    assert w[0] == 'r' && w[1] == 'm';
    DispatchAt(cmd, w, 3);
  }

  lemma {:induction false} AtList(cmd: string)
    ensures var q := Erase(cmd, 3);
            At(cmd, "list", 3) <==> Char(q, 0) == 'l' && Char(q, 1) == 'i' && Char(q, 2) == 's' && Char(q, 3) == 't'
  {
    var w := "list";
    assert w[0] == 'l' && w[1] == 'i' && w[2] == 's' && w[3] == 't';
    DispatchAt(cmd, w, 3);
  }

  /** What is dispatched where: by the first two characters and the word from the fourth on. */
  lemma {:induction false} DispatchIff(cmd: string)
    ensures Dispatch(cmd).Connect? <==> cmd == "connect"
    ensures Dispatch(cmd).Peers? <==> cmd == "peers"
    ensures Dispatch(cmd).Query? <==> At(cmd, "db", 0) && At(cmd, "query", 3)
    ensures Dispatch(cmd).Add? <==> At(cmd, "db", 0) && At(cmd, "add", 3)
    ensures Dispatch(cmd).Rm? <==> At(cmd, "db", 0) && At(cmd, "rm", 3)
    ensures Dispatch(cmd).List? <==> At(cmd, "db", 0) && At(cmd, "list", 3)
  {
    AtDb(cmd);
    AtQuery(cmd);
    AtAdd(cmd);
    AtRm(cmd);
    AtList(cmd);
  }

  /** The argument is what follows the word and one more character, whatever that is; commands in full. */
  lemma {:induction false} DispatchWords(c: char, d: char, x: string)
    ensures Dispatch("db" + [c] + "query" + [d] + x) == Query(x) && Dispatch("db" + [c] + "query") == Query("")
    ensures Dispatch("db" + [c] + "add" + [d] + x) == Add(x) && Dispatch("db" + [c] + "add") == Add("")
    ensures Dispatch("db" + [c] + "rm" + [d] + x) == Rm(x) && Dispatch("db" + [c] + "rm") == Rm("")
    ensures Dispatch("db" + [c] + "list" + [d] + x) == List(x) && Dispatch("db" + [c] + "list") == List("")
  {
    DispatchWord(c, "query", d, x);
    DispatchWord(c, "add", d, x);
    DispatchWord(c, "rm", d, x);
    DispatchWord(c, "list", d, x);
  }

  lemma {:induction false} DispatchWord(c: char, word: string, d: char, x: string)
    requires word in {"query", "add", "rm", "list"}
    ensures var cmd := "db" + [c] + word + [d] + x;
            && Erase(cmd, 3) == word + [d] + x && Erase(Erase(cmd, 3), |word| + 1) == x
            && At(cmd, "db", 0) && At(cmd, word, 3)
    ensures var cmd := "db" + [c] + word;
            && Erase(cmd, 3) == word && Erase(Erase(cmd, 3), |word| + 1) == ""
            && At(cmd, "db", 0) && At(cmd, word, 3)
  {
    var cmd := "db" + [c] + word + [d] + x;
    assert cmd[0..2] == "db" && cmd[3..3+|word|] == word && cmd[3..] == word + [d] + x;
    var short := "db" + [c] + word;
    assert short[0..2] == "db" && short[3..] == word == short[3..3+|word|];
  }

  /** A command without a mark is taken as it is, and for nobody. */
  lemma {:induction false} StripUnmarked(cmd: string)
    requires !Contains(cmd, "AUTH:")
    ensures Strip(cmd) == Stripped(cmd, "")
  {
  }

  // ---------------------------------------------------------------- together

  /** The mark cannot begin inside another mark. */
  lemma {:induction false} MarksApart(t: string, d: string, j: nat)
    requires |t| + 1 < j && At(t + SUFFIX + d, MARK, j)
    ensures j >= |t| + 6 && At(d, MARK, j - |t| - 6)
  {
    var s := t + SUFFIX + d;
    assert s[j] == MARK[0] by { assert s[j..j+5][0] == s[j]; }
    assert forall i :: |t| + 1 < i < |t| + 6 ==> s[i] == SUFFIX[i - |t|];
    assert j >= |t| + 6;
    assert s[j..j+5] == d[j-|t|-6..j-|t|-1];
  }

  /** What follows the last mark in a user, if there is one. */
  function AfterMark(d: string): string {
    match RFind(d, MARK, |d|)
    case None => d
    case Some(u) => d[u+5..]
  }

  /** The last mark in the user is the last of all. */
  lemma {:induction false} LastMark(t: string, d: string, k: nat)
    requires RFind(d, MARK, |d|) == Some(k)
    ensures RFind(t + SUFFIX + d, MARK, |t + SUFFIX + d|) == Some(|t| + 6 + k)
  {
    var s := t + SUFFIX + d;
    assert s[|t|+6+k..|t|+11+k] == d[k..k+5];
    assert At(s, MARK, |t| + 6 + k);
    var u := RFind(s, MARK, |s|).value;
    if u != |t| + 6 + k {
      MarksApart(t, d, u);
      assert false;
    }
  }

  /** The mark the client writes is the last, if there is none in the user. */
  lemma {:induction false} OnlyMark(t: string, d: string)
    requires RFind(d, MARK, |d|).None?
    ensures RFind(t + SUFFIX + d, MARK, |t + SUFFIX + d|) == Some(|t| + 1)
  {
    var s := t + SUFFIX + d;
    assert s[|t|+1..|t|+6] == MARK;
    assert At(s, MARK, |t| + 1);
    var u := RFind(s, MARK, |s|).value;
    if u != |t| + 1 {
      MarksApart(t, d, u);
      assert false;
    }
  }

  /** The daemon recovers the command and the user exactly if there is no mark in the user, whatever the command
      contains; if there is one, what follows it is taken for the user, and what precedes it for the command. */
  lemma {:induction false} StripInvertsAppend(t: string, d: string)
    ensures Strip(t + SUFFIX + d).Stripped? && Strip(t + SUFFIX + d).user == AfterMark(d)
    ensures t <= Strip(t + SUFFIX + d).cmd
    ensures Strip(t + SUFFIX + d) == Stripped(t, d) <==> !Contains(d, MARK)
  {
    var s := t + SUFFIX + d;
    match RFind(d, MARK, |d|) {
      case None =>
        OnlyMark(t, d);
        assert s[..|t|] == t && s[|t|+6..] == d;
        forall j: nat ensures !At(d, MARK, j) {}
      case Some(k) =>
        LastMark(t, d, k);
        assert At(d, MARK, k);
        assert s[|t|+6+k+5..] == d[k+5..] && |AfterMark(d)| < |d|;
        assert s[..|t|+5+k][..|t|] == t;
    }
  }

  /** What a client sends raises the exception exactly if it needs no user, begins with the mark and has no other. */
  lemma {:induction false} SentThrowsIff(cmd: string, wallet: Option<string>)
    requires Sent(cmd, wallet).Some?
    ensures Strip(Sent(cmd, wallet).value).Thrown? <==> !NeedsAuth(Trimmed(cmd)) && OnlyAtFront(Trimmed(cmd))
  {
    var t := Trimmed(cmd);
    if NeedsAuth(t) {
      var s := t + SUFFIX + wallet.value;
      assert s[|t|+1..|t|+6] == MARK;
      assert At(s, MARK, |t| + 1);
    }
  }

  lemma {:induction false} PrefixContains(s: string, n: nat, p: string, i: nat)
    requires n <= |s| && At(s[..n], p, i)
    ensures Contains(s, p)
  {
    assert s[i..i+|p|] == s[..n][i..i+|p|];
    assert At(s, p, i);
  }

  /** What is dispatched to add or remove something mentions both words the client looks for. */
  lemma {:induction false} DispatchedNeedsAuth(c: string)
    requires Dispatch(c).Add? || Dispatch(c).Rm?
    ensures At(c, "db", 0) && (At(c, "add", 3) || At(c, "rm", 3))
  {
    assert c[0..2] == "db";
    if Dispatch(c).Add? {
      assert c[3..6] == "add";
    } else {
      assert c[3..5] == "rm";
    }
  }

  /** Every command of a client that the daemon takes for an addition or a removal carries the client's user: all of it
      exactly if there is no mark in it, and otherwise what follows the last mark. */
  lemma {:induction false} DispatchedHasUser(cmd: string, wallet: Option<string>)
    requires Sent(cmd, wallet).Some?
    ensures var r := Strip(Sent(cmd, wallet).value);
            r.Stripped? && (Dispatch(r.cmd).Add? || Dispatch(r.cmd).Rm?) ==>
              wallet.Some? && r.user == AfterMark(wallet.value) &&
              (r.user == wallet.value && r.cmd == Trimmed(cmd) <==> !Contains(wallet.value, MARK))
  {
    var t := Trimmed(cmd);
    var r := Strip(Sent(cmd, wallet).value);
    if r.Stripped? && (Dispatch(r.cmd).Add? || Dispatch(r.cmd).Rm?) {
      DispatchedNeedsAuth(r.cmd);
      if !NeedsAuth(t) {
        assert r.cmd == t[..|r.cmd|];
        PrefixContains(t, |r.cmd|, "db", 0);
        if At(r.cmd, "add", 3) {
          PrefixContains(t, |r.cmd|, "add", 3);
        } else {
          PrefixContains(t, |r.cmd|, "rm", 3);
        }
        assert false;
      } else {
        StripInvertsAppend(t, wallet.value);
      }
    }
  }

  /** So the user arrives empty exactly if the digest is empty or ends in a mark. */
  lemma {:induction false} UserEmptyIff(d: string)
    ensures AfterMark(d) == "" <==> d == "" || (|d| >= 5 && At(d, MARK, |d| - 5))
  {
    if |d| >= 5 && At(d, MARK, |d| - 5) {
      var u := RFind(d, MARK, |d|);
      assert u.value == |d| - 5;
    }
  }

  // ---------------------------------------------------------------- whole commands

  /** Commands in full, with the digest of their user behind them. */
  function AddOrder(x: string, user: string): string {
    "db add " + x + " AUTH:" + user
  }

  function RmOrder(x: string, user: string): string {
    "db rm " + x + " AUTH:" + user
  }

  function QueryOrder(x: string): string {
    "db query " + x
  }

  function ListOrder(x: string): string {
    "db list " + x
  }

  lemma {:induction false} OrderWords(x: string)
    ensures "db add " + x == "db" + [' '] + "add" + [' '] + x && "db rm " + x == "db" + [' '] + "rm" + [' '] + x
    ensures "db query " + x == "db" + [' '] + "query" + [' '] + x && "db list " + x == "db" + [' '] + "list" + [' '] + x
  {
  }

  /** What the daemon makes of them. */
  lemma {:induction false} Orders(x: string, user: string)
    ensures Dispatch("db add " + x) == Add(x) && Dispatch("db rm " + x) == Rm(x)
    ensures Dispatch(QueryOrder(x)) == Query(x) && Dispatch(ListOrder(x)) == List(x)
    ensures !Contains(user, "AUTH:") ==> Strip(AddOrder(x, user)) == Stripped("db add " + x, user)
    ensures !Contains(user, "AUTH:") ==> Strip(RmOrder(x, user)) == Stripped("db rm " + x, user)
  {
    OrderWords(x);
    DispatchWords(' ', ' ', x);
    StripInvertsAppend("db add " + x, user);
    StripInvertsAppend("db rm " + x, user);
  }
}
