/** `redisvFormatCommand` over text, `%s`, `%b` and `%%`. */
module RedisFormat {
  import opened Common
  import opened RedisWire
  import opened RedisWriter

  // -------------------------------------------------- what a format denotes

  /** A format is a row of gaps (its own spaces) and pieces of argument text. */
  datatype Unit = Gap | Piece(text: string)

  /** Every conversion is one of the three modelled here. */
  predicate Supported(format: string) {
    if format == "" then true
    else if format[0] == '%' && |format| > 1 then format[1] in "sb%" && Supported(format[2..])
    else Supported(format[1..])
  }

  /** The number of arguments a format consumes. */
  function Needs(format: string): nat {
    if format == "" then 0
    else if format[0] == '%' && |format| > 1 then
      (if format[1] == '%' then 0 else 1) + Needs(format[2..])
    else Needs(format[1..])
  }

  /** A C string ends before its first NUL. */
  function CText(s: string): string {
    if s == "" || s[0] == '\0' then "" else [s[0]] + CText(s[1..])
  }

  function Lex(format: string, args: seq<string>): seq<Unit>
    requires Supported(format) && Needs(format) <= |args|
  {
    if format == "" then []
    else if format[0] == '%' && |format| > 1 then
      if format[1] == '%' then [Piece("%")] + Lex(format[2..], args)
      else
        var text := if format[1] == 's' then CText(args[0]) else args[0];
        [Piece(text)] + Lex(format[2..], args[1..])
    else
      [if format[0] == ' ' then Gap else Piece([format[0]])] + Lex(format[1..], args)
  }

  /** The runs of pieces between gaps. */
  function Groups(units: seq<Unit>): (gs: seq<seq<string>>)
    ensures |gs| > 0
  {
    if units == [] then [[]]
    else
      var gs := Groups(units[1..]);
      if units[0].Gap? then [[]] + gs else [[units[0].text] + gs[0]] + gs[1..]
  }

  /** Each non-empty run is one argument. */
  function Join(groups: seq<seq<string>>): seq<string> {
    if groups == [] then []
    else (if groups[0] == [] then [] else [Flatten(groups[0])]) + Join(groups[1..])
  }

  function Arguments(format: string, args: seq<string>): seq<string>
    requires Supported(format) && Needs(format) <= |args|
  {
    Join(Groups(Lex(format, args)))
  }

  // ---------------------------------------- substituted data never splits

  predicate SameShape(us: seq<Unit>, vs: seq<Unit>) {
    |us| == |vs| && forall i | 0 <= i < |us| :: us[i].Gap? == vs[i].Gap?
  }

  lemma {:induction false} LexShape(format: string, a: seq<string>, b: seq<string>)
    requires Supported(format) && Needs(format) <= |a| && Needs(format) <= |b|
    ensures SameShape(Lex(format, a), Lex(format, b))
  {
    if format == "" {
    } else if format[0] == '%' && |format| > 1 {
      if format[1] == '%' { LexShape(format[2..], a, b); } else { LexShape(format[2..], a[1..], b[1..]); }
    } else {
      LexShape(format[1..], a, b);
    }
  }

  lemma {:induction false} GroupsShape(us: seq<Unit>, vs: seq<Unit>)
    requires SameShape(us, vs)
    ensures |Groups(us)| == |Groups(vs)|
    ensures forall i | 0 <= i < |Groups(us)| :: |Groups(us)[i]| == |Groups(vs)[i]|
  {
    if us != [] {
      assert forall i | 0 <= i < |us| - 1 :: us[1..][i] == us[i + 1] && vs[1..][i] == vs[i + 1];
      GroupsShape(us[1..], vs[1..]);
    }
  }

  lemma {:induction false} JoinShape(gs: seq<seq<string>>, hs: seq<seq<string>>)
    requires |gs| == |hs| && forall i | 0 <= i < |gs| :: |gs[i]| == |hs[i]|
    ensures |Join(gs)| == |Join(hs)|
  {
    if gs != [] {
      assert |gs[0]| == |hs[0]|;
      JoinShape(gs[1..], hs[1..]);
    }
  }

  /** How many arguments a command has is decided by the format alone. */
  lemma SpacesInDataDoNotSplit(format: string, a: seq<string>, b: seq<string>)
    requires Supported(format) && Needs(format) <= |a| && Needs(format) <= |b|
    ensures |Arguments(format, a)| == |Arguments(format, b)|
  {
    LexShape(format, a, b);
    GroupsShape(Lex(format, a), Lex(format, b));
    JoinShape(Groups(Lex(format, a)), Groups(Lex(format, b)));
  }

  // ------------------------------------------------------------- the writer

  /** The arguments that follow once `cur` has been collected. */
  function Rest(cur: string, touched: bool, units: seq<Unit>): seq<string>
    decreases |units|
  {
    if units == [] then if touched then [cur] else []
    else
      match units[0]
      case Piece(t) => Rest(cur + t, true, units[1..])
      case Gap => if touched then [cur] + Rest("", false, units[1..]) else Rest(cur, false, units[1..])
  }

  /** One pass with a current argument finds the runs. */
  lemma {:induction false} RestIsJoin(run: seq<string>, units: seq<Unit>)
    ensures var gs := Groups(units);
            Rest(Flatten(run), run != [], units) == Join([run + gs[0]] + gs[1..])
    decreases |units|
  {
    var gs := Groups(units);
    if units == [] {
      assert run + [] == run;
    } else if units[0].Gap? {
      var hs := Groups(units[1..]);
      assert gs[0] == [] && gs[1..] == hs && run + [] == run;
      RestIsJoin([], units[1..]);
      assert [] + hs[0] == hs[0] && [hs[0]] + hs[1..] == hs;
      assert ([run] + hs)[1..] == hs;
    } else {
      var hs := Groups(units[1..]);
      var t := units[0].text;
      FlattenSnoc(run, t);
      RestIsJoin(run + [t], units[1..]);
      assert (run + [t]) + hs[0] == run + ([t] + hs[0]);
      assert gs[1..] == hs[1..];
    }
  }

  lemma RestFromStart(units: seq<Unit>)
    ensures Rest("", false, units) == Join(Groups(units))
  {
    RestIsJoin([], units);
    var gs := Groups(units);
    assert [] + gs[0] == gs[0] && [gs[0]] + gs[1..] == gs;
  }

  // --------------------------------------------- formats as they are written

  /** Part of a word of a format, with the argument it takes: a character, "%%",
      "%s" with a C string and what is behind its NUL, "%b" with some bytes. */
  datatype Item = Plain(c: char) | Percent | Text(shown: string, hidden: Option<string>) | Bytes(bytes: string)

  /** The spaces before a word, and its parts. */
  datatype Word = Word(spaces: nat, items: seq<Item>)

  function Spaces(n: nat): (s: string)
    ensures |s| == n
  {
    seq(n, _ => ' ')
  }

  function ItemText(i: Item): string { match i case Plain(c) => [c] case Percent => "%%" case Text(_, _) => "%s" case Bytes(_) => "%b" }

  function ItemArgs(i: Item): seq<string> {
    match i
    case Text(s, None) => [s]
    case Text(s, Some(h)) => [s + "\0" + h]
    case Bytes(b) => [b]
    case _ => []
  }

  /** What it contributes to the argument of the command. */
  function ItemMeans(i: Item): string { match i case Plain(c) => [c] case Percent => "%" case Text(s, _) => s case Bytes(b) => b }

  function ItemsText(items: seq<Item>): string { if items == [] then "" else ItemText(items[0]) + ItemsText(items[1..]) }

  function ItemsArgs(items: seq<Item>): seq<string> { if items == [] then [] else ItemArgs(items[0]) + ItemsArgs(items[1..]) }

  function ItemsMean(items: seq<Item>): string { if items == [] then "" else ItemMeans(items[0]) + ItemsMean(items[1..]) }

  function WordsText(ws: seq<Word>, tail: nat): string {
    if ws == [] then Spaces(tail) else Spaces(ws[0].spaces) + (ItemsText(ws[0].items) + WordsText(ws[1..], tail))
  }

  function WordsArgs(ws: seq<Word>): seq<string> { if ws == [] then [] else ItemsArgs(ws[0].items) + WordsArgs(ws[1..]) }

  function WordsMean(ws: seq<Word>): seq<string> { if ws == [] then [] else [ItemsMean(ws[0].items)] + WordsMean(ws[1..]) }

  predicate WellItem(i: Item) { (i.Plain? ==> i.c != ' ' && i.c != '%') && (i.Text? ==> '\0' !in i.shown) }

  /** No empty word, and spaces between the words. */
  predicate WellWords(ws: seq<Word>) {
    (forall w <- ws :: w.items != [] && forall i <- w.items :: WellItem(i)) && forall k :: 0 < k < |ws| ==> ws[k].spaces > 0
  }

  lemma {:induction false} CTextShown(s: string, hidden: Option<string>)
    requires '\0' !in s
    ensures CText(s + match hidden case None => "" case Some(h) => "\0" + h) == s
    decreases |s|
  {
    var all := s + match hidden case None => "" case Some(h) => "\0" + h;
    if s != "" {
      assert all[0] == s[0] && all[1..] == s[1..] + (match hidden case None => "" case Some(h) => "\0" + h);
      assert s[0] in s && forall c <- s[1..] :: c in s;
      CTextShown(s[1..], hidden);
    }
  }

  /** The next unit of a format. */
  predicate Begins(format: string, args: seq<string>, u: Unit, rest: string, others: seq<string>) {
    Supported(rest) && Needs(rest) <= |others| &&
    Supported(format) && Needs(format) <= |args| && Lex(format, args) == [u] + Lex(rest, others)
  }

  lemma ItemBegins(i: Item, rest: string, others: seq<string>)
    requires WellItem(i) && Supported(rest) && Needs(rest) <= |others|
    ensures Begins(ItemText(i) + rest, ItemArgs(i) + others, Piece(ItemMeans(i)), rest, others)
  {
    var f := ItemText(i) + rest;
    var args := ItemArgs(i) + others;
    if i.Plain? {
      assert f[0] == i.c && f[1..] == rest && args == others;
    } else {
      assert f[0] == '%' && f[2..] == rest;
      if i.Percent? { assert args == others; } else { assert args[1..] == others; }
      if i.Text? {
        CTextShown(i.shown, i.hidden);
        assert i.hidden.None? ==> i.shown + "" == i.shown;
        assert i.hidden.Some? ==> i.shown + "\0" + i.hidden.value == i.shown + ("\0" + i.hidden.value);
      }
    }
  }

  lemma {:induction false} ItemsRest(items: seq<Item>, rest: string, others: seq<string>, cur: string, touched: bool)
    requires (forall i <- items :: WellItem(i)) && Supported(rest) && Needs(rest) <= |others|
    ensures var f, args := ItemsText(items) + rest, ItemsArgs(items) + others;
            Supported(f) && Needs(f) <= |args| &&
            Rest(cur, touched, Lex(f, args)) == Rest(cur + ItemsMean(items), touched || items != [], Lex(rest, others))
    decreases |items|
  {
    if items == [] {
      assert "" + rest == rest && [] + others == others && cur + "" == cur;
    } else {
      var f, args := ItemsText(items[1..]) + rest, ItemsArgs(items[1..]) + others;
      var i := items[0];
      assert i in items && forall j <- items[1..] :: j in items;
      ItemsRest(items[1..], rest, others, cur + ItemMeans(i), true);
      ItemBegins(i, f, args);
      Regrouped(ItemText(i), ItemsText(items[1..]), rest);
      Regrouped(ItemArgs(i), ItemsArgs(items[1..]), others);
      Regrouped(cur, ItemMeans(i), ItemsMean(items[1..]));
      RestStep(cur, touched, Piece(ItemMeans(i)), Lex(ItemText(i) + f, ItemArgs(i) + args), Lex(f, args));
    }
  }

  lemma MoreSpaces(n: nat, rest: string)
    ensures " " + (Spaces(n) + rest) == Spaces(n + 1) + rest
  {
  }

  lemma SpaceBegins(rest: string, others: seq<string>)
    requires Supported(rest) && Needs(rest) <= |others|
    ensures Begins(" " + rest, others, Gap, rest, others)
  {
    var f := " " + rest;
    assert f[0] == ' ' && f[1..] == rest;
  }

  lemma {:induction false} SpacesRest(n: nat, rest: string, others: seq<string>)
    requires Supported(rest) && Needs(rest) <= |others|
    ensures var f := Spaces(n) + rest;
            Supported(f) && Needs(f) <= |others| && Rest("", false, Lex(f, others)) == Rest("", false, Lex(rest, others)) &&
            (n > 0 ==> Lex(f, others) != [] && Lex(f, others)[0].Gap?)
  {
    if n == 0 {
      assert Spaces(n) + rest == rest;
    } else {
      SpacesRest(n - 1, rest, others);
      var f := Spaces(n - 1) + rest;
      SpaceBegins(f, others);
      MoreSpaces(n - 1, rest);
      RestStep("", false, Gap, Lex(" " + f, others), Lex(f, others));
    }
  }

  /** A word is over at a space, or at the end. */
  lemma WordOver(cur: string, units: seq<Unit>)
    requires units == [] || units[0].Gap?
    ensures Rest(cur, true, units) == [cur] + Rest("", false, units)
  {
    if units == [] { assert [cur] + [] == [cur]; }
  }

  lemma {:induction false} WordsRest(ws: seq<Word>, tail: nat)
    requires WellWords(ws)
    ensures var f, args := WordsText(ws, tail), WordsArgs(ws);
            Supported(f) && Needs(f) <= |args| && Rest("", false, Lex(f, args)) == WordsMean(ws) &&
            (f != "" && f[0] == ' ' ==> Lex(f, args) != [] && Lex(f, args)[0].Gap?)
    decreases |ws|
  {
    if ws == [] {
      SpacesRest(tail, "", []);
      assert Spaces(tail) + "" == Spaces(tail);
    } else {
      var w := ws[0];
      assert w in ws && (forall v <- ws[1..] :: v in ws) && forall k | 0 < k < |ws| - 1 :: ws[1..][k] == ws[k + 1];
      WordsRest(ws[1..], tail);
      var rest, others := WordsText(ws[1..], tail), WordsArgs(ws[1..]);
      WordEnds(ws, tail);
      ItemsRest(w.items, rest, others, "", false);
      assert "" + ItemsMean(w.items) == ItemsMean(w.items);
      WordOver(ItemsMean(w.items), Lex(rest, others));
      SpacesRest(w.spaces, ItemsText(w.items) + rest, ItemsArgs(w.items) + others);
    }
  }

  lemma WordEnds(ws: seq<Word>, tail: nat)
    requires WellWords(ws) && ws != []
    ensures var f := WordsText(ws[1..], tail); f == "" || f[0] == ' '
  {
    if |ws| > 1 { assert ws[1..][0] == ws[1]; }
  }

  /** Words separated by spaces, with conversions in them, are the arguments of
      the command, with the data in the place of the conversions. */
  lemma WordsAreArguments(ws: seq<Word>, tail: nat)
    requires WellWords(ws)
    ensures var f, args := WordsText(ws, tail), WordsArgs(ws);
            Supported(f) && Needs(f) <= |args| && Arguments(f, args) == WordsMean(ws)
  {
    WordsRest(ws, tail);
    RestFromStart(Lex(WordsText(ws, tail), WordsArgs(ws)));
  }

  /** The bytes written are those of the command the format denotes. */
  method FormatCommand(format: string, args: seq<string>) returns (cmd: array<char>, totlen: nat)
    requires '\0' !in format && Supported(format) && Needs(format) <= |args|
    requires |Encode(Command(Arguments(format, args)))| < INT_MAX
    ensures fresh(cmd) && cmd.Length == totlen + 1
    ensures cmd[..totlen] == Encode(Command(Arguments(format, args))) && cmd[totlen] == '\0'
  {
    var argv, size := CollectArguments(format, args);
    assert Encode(Command(argv)) == Header(|argv|) + Body(argv);
    BulksFit(argv);
    // bytes needed to hold the multi bulk count
    var digits := IntLen(|argv|);
    totlen := size + 1 + digits + 2;
    cmd := WriteCommand(argv, totlen);
  }

  predicate IsConversion(format: string, c: nat) {
    c + 1 < |format| && format[c] == '%'
  }

  function PlainUnit(ch: char): Unit { if ch == ' ' then Gap else Piece([ch]) }

  /** A byte that starts no conversion is a unit of its own. */
  lemma PlainStep(format: string, args: seq<string>, c: nat, a: nat)
    requires c < |format| && a <= |args| && !IsConversion(format, c)
    requires Supported(format[c..]) && Needs(format[c..]) <= |args| - a
    ensures Supported(format[c + 1..]) && Needs(format[c + 1..]) <= |args| - a
    ensures Lex(format[c..], args[a..]) == [PlainUnit(format[c])] + Lex(format[c + 1..], args[a..])
  {
    assert format[c..][1..] == format[c + 1..];
  }

  /** The text of the conversion at `format[c..]`, and the next argument. */
  method Convert(format: string, args: seq<string>, c: nat, a: nat) returns (text: string, next: nat)
    requires IsConversion(format, c) && a <= |args|
    requires Supported(format[c..]) && Needs(format[c..]) <= |args| - a
    ensures a <= next <= |args| && Supported(format[c + 2..]) && Needs(format[c + 2..]) <= |args| - next
    ensures Lex(format[c..], args[a..]) == [Piece(text)] + Lex(format[c + 2..], args[next..])
  {
    assert format[c..][2..] == format[c + 2..];
    text, next := "%", a;
    if format[c + 1] == 's' {
      text, next := CText(args[a]), a + 1;
      assert args[a..][1..] == args[a + 1..];
    } else if format[c + 1] == 'b' {
      text, next := args[a], a + 1;
      assert args[a..][1..] == args[a + 1..];
    }
  }

  lemma RestStep(cur: string, touched: bool, u: Unit, before: seq<Unit>, after: seq<Unit>)
    requires before == [u] + after
    ensures Rest(cur, touched, before) ==
            match u
            case Piece(t) => Rest(cur + t, true, after)
            case Gap => if touched then [cur] + Rest("", false, after) else Rest(cur, false, after)
  {
    assert before[0] == u && before[1..] == after;
  }

  /** A space ends the argument being gathered; any other byte belongs to it. */
  method PlainByte(ch: char, argv: seq<string>, curarg: string, touched: bool, size: nat, ghost after: seq<Unit>)
    returns (all: seq<string>, cur: string, on: bool, totlen: nat)
    requires size == |Body(argv)| && (!touched ==> curarg == "")
    requires |Body(argv + Rest(curarg, touched, [PlainUnit(ch)] + after))| < INT_MAX
    ensures all + Rest(cur, on, after) == argv + Rest(curarg, touched, [PlainUnit(ch)] + after)
    ensures totlen == |Body(all)| && (!on ==> cur == "")
  {
    RestStep(curarg, touched, PlainUnit(ch), [PlainUnit(ch)] + after, after);
    all, cur, on, totlen := argv, curarg, touched, size;
    if ch != ' ' {
      cur, on := curarg + [ch], true;
    } else if touched {
      all, totlen := AddArgument(argv, curarg, size, Rest("", false, after));
      // it has been handed on, so the next one starts afresh
      cur, on := "", false;
    }
  }

  method CollectArguments(format: string, args: seq<string>) returns (argv: seq<string>, totlen: nat)
    requires Supported(format) && Needs(format) <= |args|
    requires |Body(Arguments(format, args))| < INT_MAX
    ensures argv == Arguments(format, args) && totlen == |Body(argv)|
  {
    var c, a := 0, 0;
    var curarg, touched := "", false;
    argv, totlen := [], 0;
    ghost var goal, left := Arguments(format, args), Lex(format, args);
    RestFromStart(left);
    assert format[0..] == format && args[0..] == args;
    while c < |format|
      invariant c <= |format| && a <= |args|
      invariant Supported(format[c..]) && Needs(format[c..]) <= |args| - a
      invariant left == Lex(format[c..], args[a..])
      invariant goal == argv + Rest(curarg, touched, left)
      invariant !touched ==> curarg == ""
      invariant totlen == |Body(argv)|
    {
      if format[c] != '%' || c + 1 == |format| {
        PlainStep(format, args, c, a);
        argv, curarg, touched, totlen := PlainByte(format[c], argv, curarg, touched, totlen, Lex(format[c + 1..], args[a..]));
        c := c + 1;
      } else {
        var text, next := Convert(format, args, c, a);
        RestStep(curarg, touched, Piece(text), left, Lex(format[c + 2..], args[next..]));
        curarg, touched := curarg + text, true;
        c, a := c + 2, next;
      }
      left := Lex(format[c..], args[a..]);
    }
    // what is still being gathered is an argument too
    assert format[c..] == "" && left == [];
    if touched {
      assert [curarg] + [] == [curarg];
      argv, totlen := AddArgument(argv, curarg, totlen, []);
    }
  }

  /** Append one more argument and account for it; `others` are still to come. */
  method AddArgument(argv: seq<string>, arg: string, size: nat, ghost others: seq<string>)
    returns (all: seq<string>, totlen: nat)
    requires size == |Body(argv)| && |Body(argv + ([arg] + others))| < INT_MAX
    ensures all == argv + [arg] && all + others == argv + ([arg] + others) && totlen == |Body(all)|
  {
    all := argv + [arg];
    assert argv + ([arg] + others) == all + others;
    BodySplit(all + others, |all|);
    assert (all + others)[..|all|] == all;
    BodySnoc(argv, arg);
    var len := BulkLen(|arg|);
    totlen := size + len;
  }
}
