/** What is a URL, told from the text alone: the parts it is put together from.
  The two state machines accept exactly these texts. */
module HttpUrlGrammar {
  import opened Common
  import opened HttpTypes
  import opened HttpStep
  import opened HttpUrl

  // ---------------------------------------------------------------- characters

  predicate Letter(c: char) { 'a' <= c <= 'z' || 'A' <= c <= 'Z' }

  predicate Digit(c: char) { c in "0123456789" }

  predicate UserinfoText(c: char) { Letter(c) || Digit(c) || c in "-_.!~*'()%;:&=+$," }

  predicate HostText(c: char) { Letter(c) || Digit(c) || c == '.' || c == '-' }

  predicate LiteralText(c: char) { Digit(c) || c in "abcdefABCDEF:." }

  /** The entries of the table `normal_url_char` for eight characters. */
  function TableRow(k: nat): (r: seq<nat>)
    ensures |r| == 8
  {
    if k < 4 || k >= 16 then [0, 0, 0, 0, 0, 0, 0, 0]
    else if k == 4 then [0, 2, 4, 0, 16, 32, 64, 128]
    else if k == 7 || k == 15 then [1, 2, 4, 8, 16, 32, 64, 0]
    else [1, 2, 4, 8, 16, 32, 64, 128]
  }

  /** `IS_URL_CHAR` */
  predicate UrlText(c: char) { TableRow(c as int / 8)[c as int % 8] != 0 }

  lemma LettersExact(c: char)
    ensures IsAlpha(c) <==> Letter(c)
  {
  }

  lemma DigitsExact(c: char)
    ensures IsNum(c) <==> Digit(c)
  {
  }

  lemma UserinfoExact(c: char)
    ensures IsUserinfoChar(c) <==> UserinfoText(c)
  {
    LettersExact(c);
    DigitsExact(c);
  }

  lemma HostExact(c: char)
    ensures IsHostChar(c) <==> HostText(c)
  {
    LettersExact(c);
    DigitsExact(c);
  }

  lemma LiteralExact(c: char)
    ensures V6Text(c) <==> LiteralText(c)
  {
    DigitsExact(c);
  }

  /** The table holds the visible characters of ASCII but "#" and "?". */
  lemma TableExact(c: char)
    ensures IsUrlChar(c) <==> UrlText(c)
  {
    var k, b := c as int / 8, c as int % 8;
    assert c as int == 8 * k + b;
    ByCode(c, k, b);
  }

  lemma ByCode(c: char, k: nat, b: nat)
    requires c as int == 8 * k + b && b < 8
    ensures IsUrlChar(c) <==> 4 <= k < 16 && !(k == 4 && (b == 0 || b == 3)) && !((k == 7 || k == 15) && b == 7)
  {
  }

  // -------------------------------------------------- a URL without its authority

  /** The parts of a URL, the authority in one piece; before the fragment there
      may be "#" in any number. */
  datatype Parts = Parts(schema: Option<string>, server: string, path: string, query: Option<string>, hashes: nat, fragment: string)

  function Schema(s: Option<string>): string { match s case None => "" case Some(t) => t + "://" }

  function Query(q: Option<string>): string { match q case None => "" case Some(t) => "?" + t }

  function Hashes(n: nat): (s: string)
    ensures |s| == n
  {
    seq(n, _ => '#')
  }

  function Compose(w: Parts): string {
    Schema(w.schema) + w.server + w.path + Query(w.query) + Hashes(w.hashes) + w.fragment
  }

  predicate Every(s: string, ok: char -> bool) { forall c <- s :: ok(c) }

  predicate PieceText(c: char) { UserinfoText(c) || c == '[' || c == ']' || c == '@' }

  predicate QueryPiece(c: char) { UrlText(c) || c == '?' }

  predicate FragmentPiece(c: char) { UrlText(c) || c == '?' || c == '#' }

  /** An authority, not yet taken apart: no "@" behind another. */
  predicate ServerText(s: string) {
    Every(s, PieceText) && forall i :: 0 <= i < |s| - 1 ==> s[i] != '@' || s[i + 1] != '@'
  }

  /** There may be an authority: for CONNECT, or behind "://". */
  predicate HasPlace(w: Parts, connect: bool) { connect || w.schema.Some? }

  predicate WellSchema(w: Parts, connect: bool) {
    w.schema.Some? ==> !connect && w.schema.value != "" && Every(w.schema.value, Letter)
  }

  predicate WellServer(w: Parts, connect: bool) { ServerText(w.server) && (w.server != "" ==> HasPlace(w, connect)) }

  predicate WellPath(w: Parts, connect: bool) {
    w.path != "" ==> (w.path[0] == '/' || (w.path[0] == '*' && !HasPlace(w, connect))) && Every(w.path, UrlText)
  }

  predicate WellQuery(w: Parts, connect: bool) {
    w.query.Some? ==> (w.path != "" || HasPlace(w, connect)) && Every(w.query.value, QueryPiece)
  }

  predicate WellFragment(w: Parts) {
    (w.hashes > 0 ==> w.path != "" || w.query.Some?) &&
    (w.fragment != "" ==> w.hashes > 0 && w.fragment[0] != '#' && Every(w.fragment, FragmentPiece))
  }

  predicate IsWell(w: Parts, connect: bool) {
    WellSchema(w, connect) && WellServer(w, connect) && WellPath(w, connect) && WellQuery(w, connect) && WellFragment(w)
  }

  /** The same, which the comparison keeps the verifier from taking apart. */
  predicate Well(w: Parts, connect: bool) { IsWell(w, connect) == true }

  // ---------------------------------------------- how the machine reads the parts

  /** The state behind the text of the parts. */
  function EndState(w: Parts, connect: bool): State {
    if w.fragment != "" then ReqFragment
    else if w.hashes > 0 then ReqFragmentStart
    else if w.query.Some? then if w.query.value != "" then ReqQuery else ReqQueryStart
    else if w.path != "" then ReqPath
    else if w.server != "" then if w.server[|w.server| - 1] == '@' then ReqServerWithAt else ReqServer
    else if HasPlace(w, connect) then ReqServerStart
    else ReqSpacesBeforeUrl
  }

  function RangeOf(from: nat, s: string): Range { if s == "" then NO_RANGE else Range(true, from, |s|) }

  function PathFrom(w: Parts): nat { |Schema(w.schema)| + |w.server| }

  function QueryFrom(w: Parts): nat { PathFrom(w) + |w.path| + 1 }

  function FragmentFrom(w: Parts): nat { PathFrom(w) + |w.path| + |Query(w.query)| + w.hashes }

  /** The ranges of the parts, the authority in one piece. */
  function Places(w: Parts): Found {
    Found(match w.schema case None => NO_RANGE case Some(t) => RangeOf(0, t), RangeOf(|Schema(w.schema)|, w.server), NO_RANGE,
          RangeOf(PathFrom(w), w.path), match w.query case None => NO_RANGE case Some(t) => RangeOf(QueryFrom(w), t),
          RangeOf(FragmentFrom(w), w.fragment), NO_RANGE)
  }

  function LastOf(w: Parts): Option<UrlField> {
    if w.fragment != "" then Some(FRAGMENT)
    else if w.query.Some? && w.query.value != "" then Some(QUERY)
    else if w.path != "" then Some(PATH)
    else if w.server != "" then Some(HOST)
    else if w.schema.Some? then Some(SCHEMA)
    else None
  }

  function ScanOf(w: Parts, connect: bool): Scan { Scan(Places(w), EndState(w, connect), '@' in w.server, LastOf(w)) }

  /** One character more. */
  function Grown(w: Parts, c: char, connect: bool): Parts {
    if w.fragment != "" || (w.hashes > 0 && c != '#') then w.(fragment := w.fragment + [c])
    else if w.hashes > 0 then w.(hashes := w.hashes + 1)
    else if w.query.Some? then if c == '#' then w.(hashes := 1) else w.(query := Some(w.query.value + [c]))
    else if w.path != "" then
      if c == '?' then w.(query := Some("")) else if c == '#' then w.(hashes := 1) else w.(path := w.path + [c])
    else if c == '/' || (c == '*' && !HasPlace(w, connect)) then w.(path := [c])
    else if c == '?' then w.(query := Some(""))
    else w.(server := w.server + [c])
  }

  /** The machine goes on from the parts with `c`. */
  predicate Goes(w: Parts, c: char, connect: bool) {
    var t := ParseUrlChar(EndState(w, connect), c); !t.Dead? && !t.ReqSchema?
  }

  lemma FragmentCompose(w: Parts, c: char, connect: bool)
    requires Well(w, connect) && Goes(w, c, connect) && (w.fragment != "" || w.hashes > 0)
    ensures Compose(Grown(w, c, connect)) == Compose(w) + [c]
  {
  }

  lemma FragmentWell(w: Parts, c: char, connect: bool)
    requires Well(w, connect) && Goes(w, c, connect) && (w.fragment != "" || w.hashes > 0)
    ensures Well(Grown(w, c, connect), connect)
  {
    TableExact(c);
  }

  lemma FragmentScan(w: Parts, c: char, connect: bool)
    requires Well(w, connect) && Goes(w, c, connect) && |Compose(w)| < 0xFFFF && (w.fragment != "" || w.hashes > 0)
    ensures HttpUrl.Next(ScanOf(w, connect), c, |Compose(w)|) == ScanOf(Grown(w, c, connect), connect)
  {
  }

  lemma QueryCompose(w: Parts, c: char, connect: bool)
    requires Well(w, connect) && Goes(w, c, connect) && (w.fragment == "" && w.hashes == 0 && w.query.Some?)
    ensures Compose(Grown(w, c, connect)) == Compose(w) + [c]
  {
  }

  lemma QueryWell(w: Parts, c: char, connect: bool)
    requires Well(w, connect) && Goes(w, c, connect) && (w.fragment == "" && w.hashes == 0 && w.query.Some?)
    ensures Well(Grown(w, c, connect), connect)
  {
    TableExact(c);
  }

  lemma QueryScan(w: Parts, c: char, connect: bool)
    requires Well(w, connect) && Goes(w, c, connect) && |Compose(w)| < 0xFFFF && (w.fragment == "" && w.hashes == 0 && w.query.Some?)
    ensures HttpUrl.Next(ScanOf(w, connect), c, |Compose(w)|) == ScanOf(Grown(w, c, connect), connect)
  {
  }

  lemma PathCompose(w: Parts, c: char, connect: bool)
    requires Well(w, connect) && Goes(w, c, connect) && (w.fragment == "" && w.hashes == 0 && w.query.None? && w.path != "")
    ensures Compose(Grown(w, c, connect)) == Compose(w) + [c]
  {
  }

  lemma PathWell(w: Parts, c: char, connect: bool)
    requires Well(w, connect) && Goes(w, c, connect) && (w.fragment == "" && w.hashes == 0 && w.query.None? && w.path != "")
    ensures Well(Grown(w, c, connect), connect)
  {
    TableExact(c);
  }

  lemma PathScan(w: Parts, c: char, connect: bool)
    requires Well(w, connect) && Goes(w, c, connect) && |Compose(w)| < 0xFFFF && (w.fragment == "" && w.hashes == 0 && w.query.None? && w.path != "")
    ensures HttpUrl.Next(ScanOf(w, connect), c, |Compose(w)|) == ScanOf(Grown(w, c, connect), connect)
  {
  }

  lemma ServerCompose(w: Parts, c: char, connect: bool)
    requires Well(w, connect) && Goes(w, c, connect) && (w.fragment == "" && w.hashes == 0 && w.query.None? && w.path == "")
    ensures Compose(Grown(w, c, connect)) == Compose(w) + [c]
  {
  }

  lemma ServerWell(w: Parts, c: char, connect: bool)
    requires Well(w, connect) && Goes(w, c, connect) && (w.fragment == "" && w.hashes == 0 && w.query.None? && w.path == "")
    ensures Well(Grown(w, c, connect), connect)
  {
    TableExact(c);
    ServerFollows(EndState(w, connect), c);
    if PieceText(c) && HasPlace(w, connect) { ServerTextOn(w.server, c); }
  }

  /** What follows in the authority. */
  lemma ServerFollows(st: State, c: char)
    requires st.ReqServerStart? || st.ReqServer? || st.ReqServerWithAt? || st.ReqSpacesBeforeUrl?
    requires var t := ParseUrlChar(st, c); !t.Dead? && !t.ReqSchema?
    ensures if st.ReqSpacesBeforeUrl? then c == '/' || c == '*'
            else c == '/' || c == '?' || (PieceText(c) && (st.ReqServerWithAt? ==> c != '@'))
  {
    UserinfoExact(c);
  }

  lemma ServerTextOn(s: string, c: char)
    requires ServerText(s) && PieceText(c) && (s != "" && s[|s| - 1] == '@' ==> c != '@')
    ensures ServerText(s + [c])
  {
  }

  lemma ServerLonger(s: string, c: char)
    ensures '@' in s + [c] <==> '@' in s || c == '@'
    ensures (s + [c])[|s + [c]| - 1] == c && |s + [c]| == |s| + 1
  {
  }

  lemma ServerState(st: State, c: char)
    requires st.ReqServerStart? || st.ReqServer? || st.ReqServerWithAt? || st.ReqSpacesBeforeUrl?
    ensures var t := ParseUrlChar(st, c);
            (t.ReqServer? || t.ReqServerWithAt? ==> !st.ReqSpacesBeforeUrl? && c != '/' && c != '?' && (t.ReqServerWithAt? <==> c == '@'))
  {
  }

  lemma PlaceScan(w: Parts, c: char, connect: bool)
    requires Well(w, connect) && Goes(w, c, connect) && |Compose(w)| < 0xFFFF && EndsServer(w)
    requires ParseUrlChar(EndState(w, connect), c).ReqServer? || ParseUrlChar(EndState(w, connect), c).ReqServerWithAt?
    ensures HttpUrl.Next(ScanOf(w, connect), c, |Compose(w)|) == ScanOf(Grown(w, c, connect), connect)
  {
    ServerState(EndState(w, connect), c);
    ServerLonger(w.server, c);
    PlaceIs(w, c, connect, ParseUrlChar(EndState(w, connect), c));
  }

  lemma PlaceIs(w: Parts, c: char, connect: bool, t: State)
    requires |Compose(w)| < 0xFFFF && EndsServer(w) && HasPlace(w, connect)
    requires c != '/' && c != '?' && t == (if c == '@' then ReqServerWithAt else ReqServer)
    requires t == ParseUrlChar(EndState(w, connect), c)
    ensures HttpUrl.Next(ScanOf(w, connect), c, |Compose(w)|) == ScanOf(Grown(w, c, connect), connect)
  {
    ServerLonger(w.server, c);
    assert Grown(w, c, connect) == w.(server := w.server + [c]);
    PlaceMoves(Places(w), Places(w.(server := w.server + [c])), LastOf(w), t, |Schema(w.schema)|, w.server, c);
  }

  lemma PlaceMoves(u: Found, v: Found, last: Option<UrlField>, t: State, from: nat, server: string, c: char)
    requires from + |server| < 0xFFFF && (t.ReqServer? || t.ReqServerWithAt?)
    requires u.host == RangeOf(from, server) && v == u.(host := RangeOf(from, server + [c]))
    requires last == Some(HOST) <==> server != ""
    ensures PlacedLast(u, t, last, from + |server|) == v
  {
  }

  lemma LeaveScan(w: Parts, c: char, connect: bool)
    requires Well(w, connect) && Goes(w, c, connect) && |Compose(w)| < 0xFFFF && EndsServer(w)
    requires !ParseUrlChar(EndState(w, connect), c).ReqServer? && !ParseUrlChar(EndState(w, connect), c).ReqServerWithAt?
    ensures HttpUrl.Next(ScanOf(w, connect), c, |Compose(w)|) == ScanOf(Grown(w, c, connect), connect)
  {
  }

  predicate EndsServer(w: Parts) { w.fragment == "" && w.hashes == 0 && w.query.None? && w.path == "" }

  lemma ServerScan(w: Parts, c: char, connect: bool)
    requires Well(w, connect) && Goes(w, c, connect) && |Compose(w)| < 0xFFFF && EndsServer(w)
    ensures HttpUrl.Next(ScanOf(w, connect), c, |Compose(w)|) == ScanOf(Grown(w, c, connect), connect)
  {
    var t := ParseUrlChar(EndState(w, connect), c);
    if t.ReqServer? || t.ReqServerWithAt? { PlaceScan(w, c, connect); } else { LeaveScan(w, c, connect); }
  }

  /** One character more that is not refused: the parts grow, and the machine is
      where it should be. */
  lemma GrownExact(w: Parts, c: char, connect: bool)
    requires Well(w, connect) && Goes(w, c, connect) && |Compose(w)| < 0xFFFF
    ensures Well(Grown(w, c, connect), connect) && Compose(Grown(w, c, connect)) == Compose(w) + [c]
    ensures HttpUrl.Next(ScanOf(w, connect), c, |Compose(w)|) == ScanOf(Grown(w, c, connect), connect)
  {
    if w.fragment != "" || w.hashes > 0 {
      FragmentCompose(w, c, connect);
      FragmentWell(w, c, connect);
      FragmentScan(w, c, connect);
    } else if w.query.Some? {
      QueryCompose(w, c, connect);
      QueryWell(w, c, connect);
      QueryScan(w, c, connect);
    } else if w.path != "" {
      PathCompose(w, c, connect);
      PathWell(w, c, connect);
      PathScan(w, c, connect);
    } else {
      ServerCompose(w, c, connect);
      ServerWell(w, c, connect);
      ServerScan(w, c, connect);
    }
  }

  // ------------------------------------------------------ from the start to the end

  lemma {:induction false} WalkIsScan(s: string, connect: bool)
    ensures Scanned(s, connect).st == Walk(StartOf(connect), s)
    decreases |s|
  {
    if s != "" { WalkIsScan(s[..|s| - 1], connect); }
  }

  /** Nothing behind the schema. */
  predicate Bare(w: Parts) { EndsServer(w) && w.server == "" }

  function JustSchema(schema: Option<string>): Parts { Parts(schema, "", "", None, 0, "") }

  lemma LetterScan(n: nat, c: char)
    requires 0 < n < 0xFFFF && Letter(c)
    ensures HttpUrl.Next(InSchema(n), c, n) == InSchema(n + 1)
  {
    LettersExact(c);
  }

  lemma FirstLetterScan(c: char)
    requires Letter(c)
    ensures HttpUrl.Next(Scan(NOTHING, ReqSpacesBeforeUrl, false, None), c, 0) == InSchema(1)
  {
    LettersExact(c);
  }

  /** What is known within the schema. */
  function InSchema(n: nat): Scan { Scan(NOTHING.(schema := Range(true, 0, n)), ReqSchema, false, Some(SCHEMA)) }

  lemma {:induction false} SchemaScan(t: string)
    requires t != "" && Every(t, Letter) && Short(t)
    ensures Scanned(t, false) == InSchema(|t|)
    decreases |t|
  {
    var init, c := t[..|t| - 1], t[|t| - 1];
    assert c in t && forall e <- init :: e in t;
    if init == "" {
      FirstLetterScan(c);
    } else {
      SchemaScan(init);
      LetterScan(|init|, c);
    }
  }

  lemma ScannedAdds(s: string, c: char, connect: bool)
    ensures Scanned(s + [c], connect) == HttpUrl.Next(Scanned(s, connect), c, |s|)
  {
    assert (s + [c])[..|s|] == s;
  }

  lemma DelimiterScan(n: nat, i: nat)
    ensures HttpUrl.Next(InSchema(n), ':', i) == InSchema(n).(st := ReqSchemaSlash)
    ensures HttpUrl.Next(InSchema(n).(st := ReqSchemaSlash), '/', i) == InSchema(n).(st := ReqSchemaSlashSlash)
    ensures HttpUrl.Next(InSchema(n).(st := ReqSchemaSlashSlash), '/', i) == InSchema(n).(st := ReqServerStart)
  {
  }

  lemma BareScan(w: Parts, connect: bool)
    requires Well(w, connect) && Bare(w) && Short(Compose(w))
    ensures Scanned(Compose(w), connect) == ScanOf(w, connect)
  {
    if w.schema.Some? {
      var t := w.schema.value;
      SchemaScan(t);
      ScannedAdds(t, ':', false);
      DelimiterScan(|t|, |t|);
      ScannedAdds(t + ":", '/', false);
      DelimiterScan(|t|, |t| + 1);
      ScannedAdds(t + ":/", '/', false);
      DelimiterScan(|t|, |t| + 2);
      assert t + [':'] == t + ":" && t + ":" + ['/'] == t + ":/" && t + ":/" + ['/'] == t + "://" == Compose(w);
    } else {
      assert Compose(w) == "";
    }
  }

  /** The parts without their last character, and that character. */
  function Shrunk(w: Parts): Parts {
    if w.fragment != "" then w.(fragment := w.fragment[..|w.fragment| - 1])
    else if w.hashes > 0 then w.(hashes := w.hashes - 1)
    else if w.query.Some? then
      if w.query.value == "" then w.(query := None) else w.(query := Some(w.query.value[..|w.query.value| - 1]))
    else if w.path != "" then w.(path := w.path[..|w.path| - 1])
    else if w.server != "" then w.(server := w.server[..|w.server| - 1])
    else w
  }

  function LastChar(w: Parts): char {
    if w.fragment != "" then w.fragment[|w.fragment| - 1]
    else if w.hashes > 0 then '#'
    else if w.query.Some? then if w.query.value == "" then '?' else w.query.value[|w.query.value| - 1]
    else if w.path != "" then w.path[|w.path| - 1]
    else if w.server != "" then w.server[|w.server| - 1]
    else ' '
  }

  lemma InitEvery(s: string, ok: char -> bool)
    requires s != "" && Every(s, ok)
    ensures Every(s[..|s| - 1], ok) && ok(s[|s| - 1])
  {
    assert s[|s| - 1] in s && forall c <- s[..|s| - 1] :: c in s;
  }

  lemma ShrunkFragment(w: Parts, connect: bool)
    requires Well(w, connect) && w.fragment != ""
    ensures Well(Shrunk(w), connect) && Goes(Shrunk(w), LastChar(w), connect) && Grown(Shrunk(w), LastChar(w), connect) == w
  {
    FragmentInit(w.fragment);
    FragmentGoes(Shrunk(w), LastChar(w), connect);
  }

  lemma FragmentInit(f: string)
    requires f != "" && f[0] != '#' && Every(f, FragmentPiece)
    ensures var init, c := f[..|f| - 1], f[|f| - 1];
            init + [c] == f && Every(init, FragmentPiece) && FragmentPiece(c) && (if init == "" then c != '#' else init[0] != '#')
  {
    InitEvery(f, FragmentPiece);
  }

  lemma FragmentGoes(w: Parts, c: char, connect: bool)
    requires w.hashes > 0 && FragmentPiece(c) && (w.fragment == "" ==> c != '#')
    ensures Goes(w, c, connect)
  {
    TableExact(c);
  }

  lemma ShrunkHash(w: Parts, connect: bool)
    requires Well(w, connect) && w.fragment == "" && w.hashes > 0
    ensures Well(Shrunk(w), connect) && Goes(Shrunk(w), '#', connect) && Grown(Shrunk(w), '#', connect) == w
  {
  }

  lemma ShrunkMark(w: Parts, connect: bool)
    requires Well(w, connect) && w.fragment == "" && w.hashes == 0 && w.query == Some("")
    ensures Well(Shrunk(w), connect) && Goes(Shrunk(w), '?', connect) && Grown(Shrunk(w), '?', connect) == w
  {
    if w.path == "" { assert HasPlace(w, connect); }
  }

  lemma ShrunkQuery(w: Parts, connect: bool)
    requires Well(w, connect) && w.fragment == "" && w.hashes == 0 && w.query.Some? && w.query.value != ""
    ensures Well(Shrunk(w), connect) && Goes(Shrunk(w), LastChar(w), connect) && Grown(Shrunk(w), LastChar(w), connect) == w
  {
    var q := w.query.value;
    TableExact(LastChar(w));
    InitEvery(q, QueryPiece);
    assert q[..|q| - 1] + [q[|q| - 1]] == q;
  }

  lemma ShrunkPath(w: Parts, connect: bool)
    requires Well(w, connect) && w.fragment == "" && w.hashes == 0 && w.query.None? && w.path != ""
    ensures Well(Shrunk(w), connect) && Goes(Shrunk(w), LastChar(w), connect) && Grown(Shrunk(w), LastChar(w), connect) == w
  {
    TableExact(LastChar(w));
    InitEvery(w.path, UrlText);
  }

  lemma ServerInit(s: string)
    requires ServerText(s) && s != ""
    ensures var init, c := s[..|s| - 1], s[|s| - 1];
            ServerText(init) && PieceText(c) && (init != "" && init[|init| - 1] == '@' ==> c != '@') && init + [c] == s
  {
    InitEvery(s, PieceText);
  }

  lemma ServerGoes(st: State, c: char)
    requires PieceText(c) && (st.ReqServerStart? || st.ReqServer? || (st.ReqServerWithAt? && c != '@'))
    ensures ParseUrlChar(st, c) == (if c == '@' then ReqServerWithAt else ReqServer) && c != '/' && c != '?'
  {
    UserinfoExact(c);
  }

  lemma ShrunkServer(w: Parts, connect: bool)
    requires Well(w, connect) && EndsServer(w) && w.server != ""
    ensures Well(Shrunk(w), connect) && Goes(Shrunk(w), LastChar(w), connect) && Grown(Shrunk(w), LastChar(w), connect) == w
  {
    ServerInit(w.server);
    ServerGrows(w.(server := w.server[..|w.server| - 1]), w.server[|w.server| - 1], connect);
  }

  lemma ServerGrows(w: Parts, c: char, connect: bool)
    requires EndsServer(w) && HasPlace(w, connect) && PieceText(c) && (w.server != "" && w.server[|w.server| - 1] == '@' ==> c != '@')
    ensures Goes(w, c, connect) && Grown(w, c, connect) == w.(server := w.server + [c])
  {
    ServerGoes(EndState(w, connect), c);
  }

  lemma ShrunkExact(w: Parts, connect: bool)
    requires Well(w, connect) && !Bare(w)
    ensures Well(Shrunk(w), connect) && Goes(Shrunk(w), LastChar(w), connect) && Grown(Shrunk(w), LastChar(w), connect) == w
  {
    if w.fragment != "" {
      ShrunkFragment(w, connect);
    } else if w.hashes > 0 {
      ShrunkHash(w, connect);
    } else if w.query == Some("") {
      ShrunkMark(w, connect);
    } else if w.query.Some? {
      ShrunkQuery(w, connect);
    } else if w.path != "" {
      ShrunkPath(w, connect);
    } else {
      ShrunkServer(w, connect);
    }
  }

  /** How much there is behind the schema. */
  function Size(w: Parts): nat { |w.server| + |w.path| + |Query(w.query)| + w.hashes + |w.fragment| }

  /** The machine accepts the text of any parts, and its fields are these parts. */
  lemma {:induction false} PartsScanned(w: Parts, connect: bool)
    requires Well(w, connect) && Short(Compose(w))
    ensures Scanned(Compose(w), connect) == ScanOf(w, connect)
    decreases Size(w)
  {
    if Bare(w) {
      BareScan(w, connect);
    } else {
      var v, c := Shrunk(w), LastChar(w);
      ShrunkExact(w, connect);
      assert |Compose(w)| == |Schema(w.schema)| + Size(w) && Size(v) < Size(w);
      GrownExact(v, c, connect);
      PartsScanned(v, connect);
      ScannedAdds(Compose(v), c, connect);
    }
  }

  // ------------------------------------------------------------ the other way round

  lemma FragmentState(w: Parts, c: char, connect: bool)
    requires Goes(w, c, connect) && (w.fragment != "" || w.hashes > 0)
    ensures ParseUrlChar(EndState(w, connect), c) == EndState(Grown(w, c, connect), connect)
  {
  }

  lemma PathState(w: Parts, c: char, connect: bool)
    requires Goes(w, c, connect) && w.fragment == "" && w.hashes == 0 && !EndsServer(w)
    ensures ParseUrlChar(EndState(w, connect), c) == EndState(Grown(w, c, connect), connect)
  {
  }

  lemma ServerStates(w: Parts, c: char, connect: bool)
    requires Well(w, connect) && Goes(w, c, connect) && EndsServer(w)
    ensures ParseUrlChar(EndState(w, connect), c) == EndState(Grown(w, c, connect), connect)
  {
    ServerState(EndState(w, connect), c);
    ServerLonger(w.server, c);
  }

  /** One character more, in a URL of any length. */
  lemma GrownState(w: Parts, c: char, connect: bool)
    requires Well(w, connect) && Goes(w, c, connect)
    ensures Well(Grown(w, c, connect), connect) && Compose(Grown(w, c, connect)) == Compose(w) + [c]
    ensures ParseUrlChar(EndState(w, connect), c) == EndState(Grown(w, c, connect), connect)
  {
    if w.fragment != "" || w.hashes > 0 {
      FragmentCompose(w, c, connect);
      FragmentWell(w, c, connect);
      FragmentState(w, c, connect);
    } else if w.query.Some? {
      QueryCompose(w, c, connect);
      QueryWell(w, c, connect);
      PathState(w, c, connect);
    } else if w.path != "" {
      PathCompose(w, c, connect);
      PathWell(w, c, connect);
      PathState(w, c, connect);
    } else {
      ServerCompose(w, c, connect);
      ServerWell(w, c, connect);
      ServerStates(w, c, connect);
    }
  }

  lemma WalkAdds(from: State, s: string, c: char)
    ensures Walk(from, s + [c]) == ParseUrlChar(Walk(from, s), c)
  {
    assert (s + [c])[..|s|] == s;
  }

  lemma {:induction false} SchemaWalk(t: string)
    requires t != "" && Every(t, Letter)
    ensures Walk(ReqSpacesBeforeUrl, t) == ReqSchema
    decreases |t|
  {
    InitEvery(t, Letter);
    LettersExact(t[|t| - 1]);
    if |t| > 1 { SchemaWalk(t[..|t| - 1]); }
  }

  lemma DelimiterWalk(from: State, t: string)
    requires Walk(from, t) == ReqSchema
    ensures Walk(from, t + "://") == ReqServerStart
  {
    WalkAdds(from, t, ':');
    WalkAdds(from, t + [':'], '/');
    WalkAdds(from, t + [':'] + ['/'], '/');
    assert t + [':'] + ['/'] + ['/'] == t + "://";
  }

  lemma BareWalk(w: Parts, connect: bool)
    requires Well(w, connect) && Bare(w)
    ensures Walk(StartOf(connect), Compose(w)) == EndState(w, connect)
  {
    if w.schema.Some? {
      var t := w.schema.value;
      SchemaWalk(t);
      DelimiterWalk(ReqSpacesBeforeUrl, t);
      assert Compose(w) == t + "://";
    } else {
      assert Compose(w) == "";
    }
  }

  lemma {:induction false} PartsWalked(w: Parts, connect: bool)
    requires Well(w, connect)
    ensures Walk(StartOf(connect), Compose(w)) == EndState(w, connect)
    decreases Size(w)
  {
    if Bare(w) {
      BareWalk(w, connect);
    } else {
      var v, c := Shrunk(w), LastChar(w);
      ShrunkExact(w, connect);
      GrownState(v, c, connect);
      assert Size(v) < Size(w);
      PartsWalked(v, connect);
      WalkAdds(StartOf(connect), Compose(v), c);
    }
  }

  /** In the schema or between it and the authority. */
  predicate InSchemaPart(st: State) { st.ReqSchema? || st.ReqSchemaSlash? || st.ReqSchemaSlashSlash? }

  predicate Past(st: State) { !st.Dead? && !InSchemaPart(st) }

  lemma EndPast(w: Parts, connect: bool)
    ensures Past(EndState(w, connect))
  {
  }

  predicate Lettered(t: string) { t != "" && Every(t, Letter) }

  /** Behind the schema in each of the first states. */
  function SchemaTail(st: State): string {
    if st.ReqSchemaSlash? then ":" else if st.ReqSchemaSlashSlash? then ":/" else if st.ReqServerStart? then "://" else ""
  }

  /** Where the machine may be before an authority. */
  predicate Early(st: State) { InSchemaPart(st) || st.ReqServerStart? || st.ReqSpacesBeforeUrl? }

  lemma EarlyFrom(st: State, c: char)
    requires Early(ParseUrlChar(st, c))
    ensures var t := ParseUrlChar(st, c);
            if t.ReqSchema? then (st.ReqSchema? || st.ReqSpacesBeforeUrl?) && Letter(c)
            else InSchemaPart(st) && SchemaTail(t) == SchemaTail(st) + [c] && !t.ReqSpacesBeforeUrl?
  {
    LettersExact(c);
  }

  lemma LetteredOn(t: string, c: char)
    requires Every(t, Letter) && Letter(c)
    ensures Lettered(t + [c])
  {
  }

  /** What has been read then: a schema of letters `t`, or nothing. */
  lemma {:induction false} SchemaForm(s: string, connect: bool) returns (t: string)
    requires Early(Walk(StartOf(connect), s))
    ensures var st := Walk(StartOf(connect), s);
            if s == "" then st == StartOf(connect) else !connect && !st.ReqSpacesBeforeUrl? && Lettered(t) && s == t + SchemaTail(st)
    decreases |s|
  {
    t := "";
    if s != "" {
      var init, c := s[..|s| - 1], s[|s| - 1];
      EarlyFrom(Walk(StartOf(connect), init), c);
      t := SchemaForm(init, connect);
      if Walk(StartOf(connect), s).ReqSchema? {
        LetteredOn(init, c);
        t := s;
      }
    }
  }

  /** What leads past the schema. */
  lemma PastFrom(st: State, c: char)
    requires var t := ParseUrlChar(st, c); Past(t) && !t.ReqServerStart?
    ensures Past(st)
  {
  }

  lemma BareIs(s: string, connect: bool) returns (w: Parts)
    requires var st := Walk(StartOf(connect), s); st.ReqSpacesBeforeUrl? || st.ReqServerStart?
    ensures Builds(w, s, Walk(StartOf(connect), s), connect)
  {
    var t := SchemaForm(s, connect);
    w := JustSchema(if s == "" then None else Some(t));
  }

  lemma InitLast(s: string)
    requires s != ""
    ensures s[..|s| - 1] + [s[|s| - 1]] == s
  {
  }

  /** The parts of `s`, behind which the machine is in `st`. */
  predicate Built(w: Parts, s: string, st: State, connect: bool) {
    Well(w, connect) && Compose(w) == s && EndState(w, connect) == st
  }

  /** The same, which the comparison keeps the verifier from taking apart. */
  predicate Builds(w: Parts, s: string, st: State, connect: bool) { Built(w, s, st, connect) == true }

  lemma OneMore(w: Parts, s: string, c: char, from: State, to: State, connect: bool) returns (v: Parts)
    requires Builds(w, s, from, connect) && ParseUrlChar(from, c) == to && Past(to)
    ensures Builds(v, s + [c], to, connect)
  {
    GrownState(w, c, connect);
    v := Grown(w, c, connect);
  }

  /** A text that the machine accepts is put together from parts. */
  lemma {:induction false} Decompose(s: string, connect: bool) returns (w: Parts)
    requires Past(Walk(StartOf(connect), s))
    ensures Builds(w, s, Walk(StartOf(connect), s), connect)
    decreases |s|
  {
    var st := Walk(StartOf(connect), s);
    if st.ReqSpacesBeforeUrl? || st.ReqServerStart? {
      w := BareIs(s, connect);
    } else {
      var init, c := s[..|s| - 1], s[|s| - 1];
      InitLast(s);
      var from := Walk(StartOf(connect), init);
      PastFrom(from, c);
      w := Decompose(init, connect);
      w := OneMore(w, init, c, from, st, connect);
    }
  }

  ghost predicate Composed(s: string, connect: bool) { exists w: Parts :: Well(w, connect) && Compose(w) == s }

  /** The machine is past the schema and alive exactly behind such texts. */
  lemma ComposedExact(s: string, connect: bool)
    ensures Composed(s, connect) <==> Past(Walk(StartOf(connect), s))
  {
    if Past(Walk(StartOf(connect), s)) {
      var w := Decompose(s, connect);
      assert Built(w, s, Walk(StartOf(connect), s), connect);
    } else if Composed(s, connect) {
      var w: Parts :| Well(w, connect) && Compose(w) == s;
      PartsWalked(w, connect);
      EndPast(w, connect);
    }
  }
}
