/** The command writers: exact sizes first, then the bytes, which the reader
  turns back into the argument list. */
module RedisWriter {
  import opened Common
  import opened RedisGrammar
  import opened RedisWire

  /** An argument as it is sent, with its length in decimal. */
  function Sent(arg: string): Wire { Text(Decimal(|arg|), arg) }

  function Bulks(args: seq<string>): (ws: seq<Wire>)
    ensures |ws| == |args| && forall i | 0 <= i < |args| :: ws[i] == Sent(args[i])
  {
    seq(|args|, i requires 0 <= i < |args| => Sent(args[i]))
  }

  /** A command is an array of strings. */
  function Command(args: seq<string>): Wire { List(Decimal(|args|), Bulks(args)) }

  function Header(count: nat): string { "*" + Decimal(count) + CRLF }

  function Body(args: seq<string>): string { EncodeAll(Bulks(args)) }

  lemma {:induction false} BodySnoc(args: seq<string>, a: string)
    ensures Body(args + [a]) == Body(args) + Encode(Sent(a))
  {
    var all := args + [a];
    if args == [] {
      assert Bulks(all)[1..] == Bulks([]);
    } else {
      assert all[1..] == args[1..] + [a];
      assert Bulks(all)[1..] == Bulks(all[1..]) && Bulks(args)[1..] == Bulks(args[1..]);
      BodySnoc(args[1..], a);
    }
  }

  lemma {:induction false} BodySplit(args: seq<string>, j: nat)
    requires j <= |args|
    ensures Body(args) == Body(args[..j]) + Body(args[j..])
  {
    if j == 0 {
      assert args[..0] == [] && args[0..] == args;
    } else {
      BodySplit(args, j - 1);
      assert args[..j] == args[..j - 1] + [args[j - 1]];
      BodySnoc(args[..j - 1], args[j - 1]);
      assert Bulks(args[j - 1..])[1..] == Bulks(args[j..]);
      assert Body(args[j - 1..]) == Encode(Sent(args[j - 1])) + Body(args[j..]);
    }
  }

  /** Moving argument `j` from what is still to be written to what is written. */
  lemma BodyStep(args: seq<string>, j: nat)
    requires j < |args|
    ensures Body(args[j..]) == Encode(Sent(args[j])) + Body(args[j + 1..])
    ensures Body(args[..j + 1]) == Body(args[..j]) + Encode(Sent(args[j]))
    ensures Header(|args|) + Body(args[..j + 1]) == Header(|args|) + Body(args[..j]) + Encode(Sent(args[j]))
  {
    BodyHead(args[j..]);
    assert args[j..][1..] == args[j + 1..];
    assert args[..j + 1] == args[..j] + [args[j]];
    BodySnoc(args[..j], args[j]);
    Regrouped(Header(|args|), Body(args[..j]), Encode(Sent(args[j])));
  }

  lemma BodyHead(args: seq<string>)
    requires args != []
    ensures Body(args) == Encode(Sent(args[0])) + Body(args[1..])
  {
    assert Bulks(args)[1..] == Bulks(args[1..]);
  }

  /** What the reader makes of a written command: the array of its arguments. */
  lemma CommandRoundTrip(args: seq<string>, x: string)
    requires |Encode(Command(args))| <= INT_MAX
    ensures ParseReply(Encode(Command(args)) + x, 0) == Done(Array(seq(|args|, i requires 0 <= i < |args| => Bulk(args[i]))), x)
  {
    BulksFit(args);
    DecimalSpells(|args|);
    ParseEncode(Command(args), x, 0);
    BulksMean(args);
  }

  lemma {:induction false} BulksMean(args: seq<string>)
    ensures Meanings(Bulks(args)) == seq(|args|, i requires 0 <= i < |args| => Bulk(args[i]))
    decreases |args|
  {
    if args != [] {
      assert Bulks(args)[1..] == Bulks(args[1..]);
      BulksMean(args[1..]);
    }
  }

  lemma {:induction false} BulksFit(args: seq<string>)
    requires |Body(args)| <= INT_MAX
    ensures |args| <= |Body(args)| && AllFit(Bulks(args)) && MaxNesting(Bulks(args)) == 0
  {
    if args != [] {
      assert Bulks(args)[1..] == Bulks(args[1..]);
      assert Body(args) == Encode(Sent(args[0])) + Body(args[1..]);
      assert |Encode(Sent(args[0]))| >= |args[0]| + 5;
      DecimalSpells(|args[0]|);
      BulksFit(args[1..]);
    }
  }

  // ---------------------------------------------------------------- sizes

  /** Bytes needed to print an integer. */
  method IntLen(n: int) returns (len: nat)
    requires INT_MIN < n <= INT_MAX
    ensures len == |SignedDecimal(n)|
  {
    var i := n;
    len := 0;
    if i < 0 {
      len := 1;
      i := -i;
    }
    ghost var lead, total := len, |Decimal(i)|;
    len := len + 1;
    i := i / 10;
    while i != 0
      invariant i >= 0 && lead + total == len + if i == 0 then 0 else |Decimal(i)|
      decreases i
    {
      len := len + 1;
      i := i / 10;
    }
  }

  /** Bytes of a bulk item holding `n` bytes. */
  method BulkLen(n: nat) returns (len: nat)
    requires n <= INT_MAX
    ensures len == 1 + |Decimal(n)| + 2 + n + 2
  {
    var digits := IntLen(n);
    len := 1 + digits + 2 + n + 2;
  }

  // -------------------------------------------------------------- writing

  /** `memcpy` of `s` to position `pos`. */
  method Copy(cmd: array<char>, pos: nat, s: string)
    requires pos + |s| <= cmd.Length
    modifies cmd
    ensures cmd[..pos + |s|] == old(cmd[..pos]) + s
  {
    forall i | 0 <= i < |s| {
      cmd[pos + i] := s[i];
    }
    assert cmd[..pos] == old(cmd[..pos]);
  }

  /** `sprintf`: the text and a NUL behind it. */
  method Print(cmd: array<char>, pos: nat, s: string)
    requires pos + |s| < cmd.Length
    modifies cmd
    ensures cmd[..pos + |s|] == old(cmd[..pos]) + s && cmd[pos + |s|] == '\0'
  {
    Copy(cmd, pos, s);
    ghost var written := cmd[..pos + |s|];
    cmd[pos + |s|] := '\0';
    assert cmd[..pos + |s|] == written;
  }

  /** Fill the buffer behind the sizes; `totlen` is what they promised. */
  method WriteCommand(args: seq<string>, totlen: nat) returns (cmd: array<char>)
    requires totlen == |Encode(Command(args))|
    ensures fresh(cmd) && cmd.Length == totlen + 1
    ensures cmd[..totlen] == Encode(Command(args)) && cmd[totlen] == '\0'
  {
    cmd := new char[totlen + 1];
    var pos: nat := 0;
    assert Encode(Command(args)) == Header(|args|) + Body(args);
    Print(cmd, pos, Header(|args|));
    pos := |Header(|args|)|;
    var j := 0;
    assert args[..0] == [] && Body([]) == "" && args[0..] == args;
    while j < |args|
      invariant j <= |args| && pos <= totlen
      invariant cmd[..pos] == Header(|args|) + Body(args[..j])
      invariant totlen - pos == |Body(args[j..])|
    {
      BodyStep(args, j);
      pos := WriteBulk(cmd, pos, args[j]);
      j := j + 1;
    }
    assert args[..j] == args;
    assert pos == totlen;
    cmd[pos] := '\0';
  }

  method WriteBulk(cmd: array<char>, from: nat, arg: string) returns (pos: nat)
    requires from + |Encode(Sent(arg))| < cmd.Length
    modifies cmd
    ensures pos == from + |Encode(Sent(arg))| && cmd[..pos] == old(cmd[..from]) + Encode(Sent(arg))
  {
    pos := from;
    var head := "$" + Decimal(|arg|) + CRLF;
    Print(cmd, pos, head);
    pos := pos + |head|;
    Copy(cmd, pos, arg);
    pos := pos + |arg|;
    ghost var written := cmd[..pos];
    cmd[pos] := '\r';
    cmd[pos + 1] := '\n';
    pos := pos + 2;
    assert cmd[..pos] == written + CRLF;
  }

  /** `redisFormatCommandArgv`. */
  method FormatCommandArgv(args: seq<string>) returns (cmd: array<char>, totlen: nat)
    requires |Encode(Command(args))| < INT_MAX
    ensures fresh(cmd) && cmd.Length == totlen + 1
    ensures cmd[..totlen] == Encode(Command(args)) && cmd[totlen] == '\0'
  {
    assert Encode(Command(args)) == Header(|args|) + Body(args);
    BulksFit(args);
    var digits := IntLen(|args|);
    totlen := 1 + digits + 2;
    for j := 0 to |args|
      invariant totlen == |Header(|args|)| + |Body(args[..j])|
    {
      BodyStep(args, j);
      BodySplit(args, j + 1);
      var len := BulkLen(|args[j]|);
      totlen := totlen + len;
    }
    assert args[..|args|] == args;
    cmd := WriteCommand(args, totlen);
  }

  /** `buildRequest`: the same bytes, by appending. */
  method BuildRequest(args: seq<string>) returns (str: string)
    ensures str == Encode(Command(args))
  {
    str := "*" + Decimal(|args|) + "\r\n";
    for j := 0 to |args|
      invariant str == Header(|args|) + Body(args[..j])
    {
      str := str + ("$" + Decimal(|args[j]|) + "\r\n");
      str := str + args[j];
      str := str + "\r\n";
      BodyStep(args, j);
    }
    assert args[..|args|] == args;
  }
}
