/**
 The Redis serialization protocol as the metadata client speaks it. A string
 stands for a string of bytes, one character a byte.
 */
module Resp {
  import opened Domain
  import opened Decimal

  const CRLF := "\r\n"

  // ---------- requests ----------

  /** A bulk string: its length, then its bytes whatever they are. */
  function Bulk(a: string): string {
    "$" + Itoa(|a|) + CRLF + a + CRLF
  }

  function Bulks(args: seq<string>): string {
    if args == [] then "" else Bulks(args[..|args| - 1]) + Bulk(args[|args| - 1])
  }

  /** An array of bulk strings. */
  function Command(args: seq<string>): string {
    "*" + Itoa(|args|) + CRLF + Bulks(args)
  }

  method WriteResp(args: seq<string>) returns (buf: string)
    ensures buf == Command(args)
  {
    buf := "*";
    buf := buf + Itoa(|args|);
    buf := buf + "\r\n";
    ghost var head := buf;
    for i := 0 to |args|
      invariant buf == head + Bulks(args[..i])
    {
      assert args[..i + 1][..i] == args[..i];
      buf := buf + "$";
      buf := buf + Itoa(|args[i]|);
      buf := buf + "\r\n";
      buf := buf + args[i];
      buf := buf + "\r\n";
      assert buf == head + (Bulks(args[..i]) + Bulk(args[i]));
    }
    assert args[..|args|] == args;
  }

  /** The text before the first CR LF and what follows it. */
  function Line(s: string): Option<(string, string)> {
    if |s| < 2 then None
    else if s[..2] == CRLF then Some(("", s[2..]))
    else match Line(s[1..])
         case None => None
         case Some((line, rest)) => Some(([s[0]] + line, rest))
  }

  /** A marker, a numeral without a superfluous zero and a CR LF. */
  function Header(marker: char, s: string): Option<(nat, string)> {
    if s == "" || s[0] != marker then None
    else match Line(s[1..])
         case None => None
         case Some((line, rest)) =>
           if !Canonical(line) then None else Some((Value(line), rest))
  }

  function DecodeBulk(s: string): Option<(string, string)> {
    match Header('$', s)
    case None => None
    case Some((n, rest)) =>
      if |rest| < n + 2 || rest[n..n + 2] != CRLF then None else Some((rest[..n], rest[n + 2..]))
  }

  function DecodeBulks(s: string, n: nat): Option<(seq<string>, string)>
    decreases n
  {
    if n == 0 then Some(([], s))
    else match DecodeBulk(s)
         case None => None
         case Some((a, rest)) =>
           match DecodeBulks(rest, n - 1)
           case None => None
           case Some((args, end)) => Some(([a] + args, end))
  }

  /** What a server reads as the next command of a stream. */
  function DecodeCommand(s: string): Option<(seq<string>, string)> {
    match Header('*', s)
    case None => None
    case Some((n, rest)) => DecodeBulks(rest, n)
  }

  lemma {:induction false} LineOf(x: string, rest: string)
    requires '\r' !in x
    ensures Line(x + CRLF + rest) == Some((x, rest))
  {
    var s := x + CRLF + rest;
    if x == "" {
      assert s[..2] == CRLF && s[2..] == rest;
    } else {
      LineOf(x[1..], rest);
      assert s[1..] == x[1..] + CRLF + rest;
      assert s[0] == x[0] && s[..2][0] != CRLF[0];
      assert [x[0]] + x[1..] == x;
    }
  }

  lemma HeaderOf(marker: char, n: nat, rest: string)
    ensures Header(marker, [marker] + Itoa(n) + CRLF + rest) == Some((n, rest))
  {
    ItoaValue(n);
    ItoaCanonical(n);
    LineOf(Itoa(n), rest);
    assert ([marker] + Itoa(n) + CRLF + rest)[1..] == Itoa(n) + CRLF + rest;
  }

  lemma BulkRoundTrip(a: string, rest: string)
    ensures DecodeBulk(Bulk(a) + rest) == Some((a, rest))
  {
    HeaderOf('$', |a|, a + CRLF + rest);
    assert Bulk(a) + rest == "$" + Itoa(|a|) + CRLF + (a + CRLF + rest);
    var tail := a + CRLF + rest;
    assert tail[..|a|] == a && tail[|a|..|a| + 2] == CRLF && tail[|a| + 2..] == rest;
  }

  lemma NoBulks()
    ensures Bulks([]) == ""
  {
  }

  lemma {:induction false} BulksFront(args: seq<string>)
    requires args != []
    ensures Bulks(args) == Bulk(args[0]) + Bulks(args[1..])
  {
    hide Bulk;
    var init, last, tail := args[..|args| - 1], args[|args| - 1], args[1..];
    if |args| == 1 {
      assert init == [] && tail == [];
    } else {
      BulksFront(init);
      assert Bulks(args) == Bulks(init) + Bulk(last);
      assert init[1..] == tail[..|tail| - 1] && tail[|tail| - 1] == last;
      assert Bulks(tail) == Bulks(init[1..]) + Bulk(last);
    }
  }

  lemma {:induction false} BulksRoundTrip(args: seq<string>, rest: string)
    ensures DecodeBulks(Bulks(args) + rest, |args|) == Some((args, rest))
  {
    hide Bulk, DecodeBulk, Bulks;
    if args == [] {
      NoBulks();
      assert Bulks(args) + rest == rest;
    } else {
      BulksFront(args);
      assert Bulks(args) + rest == Bulk(args[0]) + (Bulks(args[1..]) + rest);
      BulkRoundTrip(args[0], Bulks(args[1..]) + rest);
      BulksRoundTrip(args[1..], rest);
      assert [args[0]] + args[1..] == args;
    }
  }

  /** A server reads back exactly the arguments written, for all byte strings, CR LF
      included, and leaves the bytes that follow untouched. */
  lemma CommandRoundTrip(args: seq<string>, rest: string)
    ensures DecodeCommand(Command(args) + rest) == Some((args, rest))
  {
    assert Command(args) + rest == "*" + Itoa(|args|) + CRLF + (Bulks(args) + rest);
    HeaderOf('*', |args|, Bulks(args) + rest);
    BulksRoundTrip(args, rest);
  }

  function Stream(cmds: seq<seq<string>>): string {
    if cmds == [] then "" else Command(cmds[0]) + Stream(cmds[1..])
  }

  /** The next `n` commands of a stream. */
  function DecodeStream(s: string, n: nat): Option<(seq<seq<string>>, string)>
    decreases n
  {
    if n == 0 then Some(([], s))
    else match DecodeCommand(s)
         case None => None
         case Some((args, rest)) =>
           match DecodeStream(rest, n - 1)
           case None => None
           case Some((cmds, end)) => Some(([args] + cmds, end))
  }

  /** Commands sent one after the other on a connection are read as exactly these commands. */
  lemma {:induction false} StreamRoundTrip(cmds: seq<seq<string>>, rest: string)
    ensures DecodeStream(Stream(cmds) + rest, |cmds|) == Some((cmds, rest))
  {
    if cmds == [] {
      assert Stream(cmds) + rest == rest;
    } else {
      assert Stream(cmds) + rest == Command(cmds[0]) + (Stream(cmds[1..]) + rest);
      CommandRoundTrip(cmds[0], Stream(cmds[1..]) + rest);
      StreamRoundTrip(cmds[1..], rest);
      assert [cmds[0]] + cmds[1..] == cmds;
    }
  }

  // ---------- replies ----------

  datatype Reply = Reply(kind: char, value: string, nilBulk: bool)

  /** `Panicked` stands for a length below -1, on which the client's slice expression fails. */
  datatype Outcome = Got(reply: Reply) | Broken(error: string) | Panicked

  function TrimLine(line: string): string {
    var a := if line != "" && line[|line| - 1] == '\n' then line[..|line| - 1] else line;
    if a != "" && a[|a| - 1] == '\r' then a[..|a| - 1] else a
  }

  /** The index of the first line feed. */
  function IndexLF(s: string): (i: nat)
    ensures i <= |s| && (i < |s| ==> s[i] == '\n') && '\n' !in s[..i]
  {
    if s == "" || s[0] == '\n' then 0
    else
      var i := IndexLF(s[1..]);
      assert s[..i + 1] == [s[0]] + s[1..][..i];
      i + 1
  }

  function Zeros(n: nat): string {
    seq(n, _ => '\0')
  }

  function Min(a: nat, b: nat): nat {
    if a < b then a else b
  }

  /** What the client makes of the bytes that arrive, and what it leaves unread. The bulk branch calls
      Read once: it copies at most `chunk` bytes into a buffer of zeros. */
  function Receive(s: string, chunk: nat): (Outcome, string) {
    if s == "" then (Broken("EOF"), "")
    else
      var kind, i := s[0], IndexLF(s[1..]);
      if i == |s[1..]| then (Broken("EOF"), "")
      else
        var line, rest := TrimLine(s[1..i + 2]), s[i + 2..];
        if kind == '+' || kind == ':' then (Got(Reply(kind, line, false)), rest)
        else if kind == '-' then (Broken("redis error: " + line), rest)
        else if kind != '$' then (Broken("unsupported redis response kind"), rest)
        else
          match Atoi(line)
          case None => (Broken("invalid length"), rest)
          case Some(n) =>
            if n == -1 then (Got(Reply(kind, "", true)), rest)
            else if n < -1 then (Panicked, rest)
            else if rest == "" then (Broken("EOF"), "")
            else
              var m := Min(Min(chunk, n + 2), |rest|);
              (Got(Reply(kind, (rest[..m] + Zeros(n + 2 - m))[..n], false)), rest[m..])
  }

  /** The buffered reader of one connection; one Read call yields at most `chunk` bytes. */
  class Reader {
    var data: string
    const chunk: nat

    constructor (data: string, chunk: nat)
      ensures this.data == data && this.chunk == chunk
    {
      this.data, this.chunk := data, chunk;
    }

    /** The server has sent more. */
    method Arrive(more: string)
      modifies this
      ensures data == old(data) + more
    {
      data := data + more;
    }

    method ReadByte() returns (r: Option<char>)
      modifies this
      ensures if old(data) == "" then r == None && data == "" else r == Some(old(data)[0]) && data == old(data)[1..]
    {
      if data == "" {
        return None;
      }
      r := Some(data[0]);
      data := data[1..];
    }

    /** Everything up to and including the first line feed; without one, an error at the end of the data. */
    method ReadString() returns (r: Option<string>)
      modifies this
      ensures var i := IndexLF(old(data));
              if i == |old(data)| then r == None && data == ""
              else r == Some(old(data)[..i + 1]) && data == old(data)[i + 1..]
    {
      var i := IndexLF(data);
      if i == |data| {
        data := "";
        return None;
      }
      r := Some(data[..i + 1]);
      data := data[i + 1..];
    }

    method Read(n: nat) returns (r: Option<string>)
      modifies this
      ensures if old(data) == "" then r == None && data == ""
              else var m := Min(Min(chunk, n), |old(data)|);
                r == Some(old(data)[..m]) && data == old(data)[m..]
    {
      if data == "" {
        return None;
      }
      var m := Min(Min(chunk, n), |data|);
      r := Some(data[..m]);
      data := data[m..];
    }

    method ReadResp() returns (a: Outcome)
      modifies this
      ensures (a, data) == Receive(old(data), chunk)
    {
      hide TrimLine, Atoi, IndexLF;
      ghost var s := data;
      var kind := ReadByte();
      if kind.None? {
        return Broken("EOF");
      }
      var line := ReadString();
      if line.None? {
        return Broken("EOF");
      }
      assert s[1..][..IndexLF(s[1..]) + 1] == s[1..IndexLF(s[1..]) + 2];
      assert s[1..][IndexLF(s[1..]) + 1..] == s[IndexLF(s[1..]) + 2..];
      var text := TrimLine(line.value);
      if kind.value == '+' || kind.value == ':' {
        a := Got(Reply(kind.value, text, false));
      } else if kind.value == '-' {
        a := Broken("redis error: " + text);
      } else if kind.value == '$' {
        var n := Atoi(text);
        if n.None? {
          return Broken("invalid length");
        }
        if n.value == -1 {
          return Got(Reply(kind.value, "", true));
        }
        if n.value < -1 {
          return Panicked;
        }
        var copied := Read(n.value + 2);
        if copied.None? {
          return Broken("EOF");
        }
        var buf := copied.value + Zeros(n.value + 2 - |copied.value|);
        a := Got(Reply(kind.value, buf[..n.value], false));
      } else {
        a := Broken("unsupported redis response kind");
      }
    }
  }

  lemma {:induction false} IndexOfFirstLF(x: string, rest: string)
    requires '\n' !in x
    ensures IndexLF(x + "\n" + rest) == |x|
  {
    var s := x + "\n" + rest;
    if x != "" {
      IndexOfFirstLF(x[1..], rest);
      assert s[0] == x[0] && s[1..] == x[1..] + "\n" + rest;
    }
  }

  lemma LineArrives(kind: char, x: string, rest: string)
    requires '\n' !in x
    ensures var s := [kind] + x + CRLF + rest;
            && IndexLF(s[1..]) == |x| + 1 && |x| + 1 < |s[1..]|
            && TrimLine(s[1..|x| + 3]) == x && s[|x| + 3..] == rest
  {
    var s := [kind] + x + CRLF + rest;
    IndexOfFirstLF(x + "\r", rest);
    assert s[1..] == (x + "\r") + "\n" + rest;
    assert s[1..|x| + 3] == x + "\r\n";
    assert (x + "\r\n")[..|x| + 1] == x + "\r" && (x + "\r")[..|x|] == x;
  }

  /** Simple strings and integers are read back and exactly their bytes are consumed. */
  lemma SimpleReplyRoundTrip(kind: char, x: string, rest: string, chunk: nat)
    requires kind in {'+', ':'} && '\n' !in x
    ensures Receive([kind] + x + CRLF + rest, chunk) == (Got(Reply(kind, x, false)), rest)
  {
    LineArrives(kind, x, rest);
  }

  /** A line may also end in a line feed alone. */
  lemma LoneLineFeed(kind: char, x: string, rest: string, chunk: nat)
    requires kind in {'+', ':'} && '\n' !in x && (x != "" ==> x[|x| - 1] != '\r')
    ensures Receive([kind] + x + "\n" + rest, chunk) == (Got(Reply(kind, x, false)), rest)
  {
    var s := [kind] + x + "\n" + rest;
    IndexOfFirstLF(x, rest);
    assert s[1..] == x + "\n" + rest;
    assert s[1..|x| + 2] == x + "\n" && (x + "\n")[..|x|] == x;
    assert s[|x| + 2..] == rest;
  }

  /** Without a line feed there is no reply; a kind the client does not know and a length that is no number are
      errors, and the line is consumed. */
  lemma BadReplies(kind: char, x: string, rest: string, chunk: nat)
    requires '\n' !in x
    ensures Receive("", chunk).0.Broken? && Receive([kind] + x, chunk) == (Broken("EOF"), "")
    ensures kind !in {'+', '-', ':', '$'} || (kind == '$' && Atoi(x) == None) ==>
              Receive([kind] + x + CRLF + rest, chunk).0.Broken? && Receive([kind] + x + CRLF + rest, chunk).1 == rest
  {
    hide TrimLine, Atoi;
    var s := [kind] + x;
    assert s[1..] == x;
    LineArrives(kind, x, rest);
  }

  /** An error reply is an error carrying the server's text. */
  lemma ErrorReply(x: string, rest: string, chunk: nat)
    requires '\n' !in x
    ensures Receive("-" + x + CRLF + rest, chunk) == (Broken("redis error: " + x), rest)
  {
    LineArrives('-', x, rest);
  }

  const NIL := "$-1\r\n"

  lemma NilReply(rest: string, chunk: nat)
    ensures Receive(NIL + rest, chunk) == (Got(Reply('$', "", true)), rest)
  {
    LineArrives('$', "-1", rest);
    assert NIL + rest == ['$'] + "-1" + CRLF + rest;
    assert "-1"[1..] == "1" && "1"[..0] == "";
    assert Value("1") == 1;
  }

  lemma BulkArrives(v: string, rest: string, chunk: nat)
    requires |v| <= MAX_INT
    ensures var tail, n := v + CRLF + rest, |v|;
            var m := Min(Min(chunk, n + 2), |tail|);
            Receive(Bulk(v) + rest, chunk) == (Got(Reply('$', (tail[..m] + Zeros(n + 2 - m))[..n], false)), tail[m..])
  {
    hide Atoi, Itoa, Value, TrimLine, IndexLF, Zeros, Min, AllDigits;
    var line, tail := Itoa(|v|), v + CRLF + rest;
    NumeralHasNoLF(|v|);
    AtoiItoa(|v|);
    LineArrives('$', line, tail);
    var s := ['$'] + line + CRLF + tail;
    assert Bulk(v) + rest == s;
    assert s[0] == '$' && s[1..|line| + 3] == s[1..IndexLF(s[1..]) + 2];
  }

  lemma NumeralHasNoLF(n: nat)
    ensures '\n' !in Itoa(n)
  {
    ItoaValue(n);
  }

  /** A bulk string is read back, for all bytes, and exactly its bytes are consumed, when the one Read fills the buffer. */
  lemma BulkReplyRoundTrip(v: string, rest: string, chunk: nat)
    requires |v| <= MAX_INT && chunk >= |v| + 2
    ensures Receive(Bulk(v) + rest, chunk) == (Got(Reply('$', v, false)), rest)
  {
    BulkArrives(v, rest, chunk);
    var tail := v + CRLF + rest;
    assert tail[..|v| + 2] == v + CRLF && tail[|v| + 2..] == rest;
    assert (v + CRLF + Zeros(0))[..|v|] == v;
  }

  /** A short Read loses data: the value is right exactly when every byte it missed is zero,
      and the reply is consumed exactly when the read filled the buffer. */
  lemma ShortReadIff(v: string, rest: string, chunk: nat)
    requires |v| <= MAX_INT
    ensures Receive(Bulk(v) + rest, chunk).0 == Got(Reply('$', v, false))
            <==> forall i | chunk <= i < |v| :: v[i] == '\0'
    ensures Receive(Bulk(v) + rest, chunk).1 == rest <==> chunk >= |v| + 2
  {
    BulkArrives(v, rest, chunk);
    var tail, n := v + CRLF + rest, |v|;
    var m := Min(Min(chunk, n + 2), |tail|);
    var got := (tail[..m] + Zeros(n + 2 - m))[..n];
    assert forall i | 0 <= i < n :: got[i] == if i < m then v[i] else '\0';
    assert got == v <==> forall i | chunk <= i < n :: v[i] == '\0' by {
      if forall i | chunk <= i < n :: v[i] == '\0' {
        assert forall i | 0 <= i < n :: got[i] == v[i];
      } else {
        var i :| chunk <= i < n && v[i] != '\0';
        assert got[i] == '\0';
      }
    }
    assert |tail[m..]| == |rest| + n + 2 - m;
    if m == n + 2 {
      assert tail[m..] == rest;
    }
  }
}
