/** The authority of a URL, and with it the whole URL, told from the text alone:
  which texts are accepted, and where their fields are. */
module HttpUrlText {
  import opened Common
  import opened HttpTypes
  import opened HttpStep
  import opened HttpUrl
  import opened HttpUrlGrammar

  // ------------------------------------------------------------- the authority

  /** A literal is written in brackets. */
  datatype Authority = Authority(userinfo: Option<string>, literal: bool, host: string, port: Option<string>)

  function Login(a: Authority): string { match a.userinfo case None => "" case Some(t) => t + "@" }

  function Name(a: Authority): string { if a.literal then "[" + a.host + "]" else a.host }

  function Colon(a: Authority): string { match a.port case None => "" case Some(t) => ":" + t }

  function AuthorityText(a: Authority): string { Login(a) + Name(a) + Colon(a) }

  predicate WellUserinfo(a: Authority) { a.userinfo.Some? ==> Every(a.userinfo.value, UserinfoText) }

  predicate WellHost(a: Authority) { a.host != "" && Every(a.host, if a.literal then LiteralText else HostText) }

  predicate WellPort(a: Authority) { a.port.Some? ==> a.port.value != "" && Every(a.port.value, Digit) }

  predicate WellAuthority(a: Authority) { WellUserinfo(a) && WellHost(a) && WellPort(a) }

  // ------------------------------------------------ the machine on such a text

  lemma {:induction false} HostWalkAppend(from: HostState, s: string, t: string)
    ensures HostWalk(from, s + t) == HostWalk(HostWalk(from, s), t)
    decreases |t|
  {
    if t == "" {
      assert s + t == s;
    } else {
      HostWalkAppend(from, s, t[..|t| - 1]);
      assert (s + t)[..|s + t| - 1] == s + t[..|t| - 1];
    }
  }

  /** Every character of a class leads to `to` and stays there. */
  ghost predicate LeadsTo(from: HostState, to: HostState, ok: char -> bool) {
    forall c: char {:trigger ok(c)} | ok(c) :: ParseHostChar(from, c) == to && ParseHostChar(to, c) == to
  }

  lemma {:induction false} HostWalkEvery(from: HostState, to: HostState, s: string, ok: char -> bool)
    requires s != "" && Every(s, ok) && LeadsTo(from, to, ok)
    ensures HostWalk(from, s) == to
    decreases |s|
  {
    InitEvery(s, ok);
    if |s| > 1 { HostWalkEvery(from, to, s[..|s| - 1], ok); }
  }

  lemma UserinfoGoes(c: char)
    requires UserinfoText(c)
    ensures ParseHostChar(UserinfoStart, c) == Userinfo && ParseHostChar(Userinfo, c) == Userinfo
  {
    UserinfoExact(c);
    assert c != '@';
  }

  lemma UserinfoLeads()
    ensures LeadsTo(UserinfoStart, Userinfo, UserinfoText)
  {
    forall c: char | UserinfoText(c)
      ensures ParseHostChar(UserinfoStart, c) == Userinfo && ParseHostChar(Userinfo, c) == Userinfo
    {
      UserinfoGoes(c);
    }
  }

  lemma NameGoes(c: char)
    requires HostText(c)
    ensures ParseHostChar(HostStart, c) == InHost && ParseHostChar(InHost, c) == InHost
  {
    HostExact(c);
  }

  lemma LiteralGoes(c: char)
    requires LiteralText(c)
    ensures ParseHostChar(V6Start, c) == V6 && ParseHostChar(V6, c) == V6
  {
    LiteralExact(c);
    assert c != ']';
  }

  lemma PortGoes(c: char)
    requires Digit(c)
    ensures ParseHostChar(PortStart, c) == Port && ParseHostChar(Port, c) == Port
  {
    DigitsExact(c);
  }

  lemma NameLeads()
    ensures LeadsTo(HostStart, InHost, HostText)
  {
    forall c: char | HostText(c) ensures ParseHostChar(HostStart, c) == InHost && ParseHostChar(InHost, c) == InHost {
      NameGoes(c);
    }
  }

  lemma LiteralLeads()
    ensures LeadsTo(V6Start, V6, LiteralText)
  {
    forall c: char | LiteralText(c) ensures ParseHostChar(V6Start, c) == V6 && ParseHostChar(V6, c) == V6 {
      LiteralGoes(c);
    }
  }

  lemma PortLeads()
    ensures LeadsTo(PortStart, Port, Digit)
  {
    forall c: char | Digit(c) ensures ParseHostChar(PortStart, c) == Port && ParseHostChar(Port, c) == Port {
      PortGoes(c);
    }
  }

  lemma HostWalkOne(from: HostState, c: char)
    ensures HostWalk(from, [c]) == ParseHostChar(from, c)
  {
    assert [c][..0] == "";
  }

  lemma LoginWalk(a: Authority)
    requires WellUserinfo(a)
    ensures HostWalk(HostFrom(a.userinfo.Some?), Login(a)) == HostStart
  {
    if a.userinfo.Some? {
      var t := a.userinfo.value;
      HostWalkAppend(UserinfoStart, t, "@");
      if t != "" {
        UserinfoLeads();
        HostWalkEvery(UserinfoStart, Userinfo, t, UserinfoText);
      }
      HostWalkOne(HostWalk(UserinfoStart, t), '@');
    }
  }

  function NameState(a: Authority): HostState { if a.literal then V6End else InHost }

  lemma NameWalk(a: Authority)
    requires WellHost(a)
    ensures HostWalk(HostStart, Name(a)) == NameState(a)
  {
    if a.literal {
      LiteralLeads();
      HostWalkOne(HostStart, '[');
      HostWalkEvery(V6Start, V6, a.host, LiteralText);
      HostWalkAppend(HostStart, "[", a.host);
      HostWalkAppend(HostStart, "[" + a.host, "]");
      HostWalkOne(V6, ']');
    } else {
      NameLeads();
      HostWalkEvery(HostStart, InHost, a.host, HostText);
    }
  }

  lemma ColonWalk(a: Authority)
    requires WellPort(a)
    ensures HostWalk(NameState(a), Colon(a)) == if a.port.Some? then Port else NameState(a)
  {
    if a.port.Some? {
      PortLeads();
      HostExact(':');
      HostWalkOne(NameState(a), ':');
      HostWalkEvery(PortStart, Port, a.port.value, Digit);
      HostWalkAppend(NameState(a), ":", a.port.value);
    }
  }

  lemma AuthorityWalk(a: Authority)
    requires WellAuthority(a)
    ensures HostEnds(HostWalk(HostFrom(a.userinfo.Some?), AuthorityText(a)))
  {
    var from := HostFrom(a.userinfo.Some?);
    LoginWalk(a);
    NameWalk(a);
    ColonWalk(a);
    HostWalkAppend(from, Login(a), Name(a));
    HostWalkAppend(from, Login(a) + Name(a), Colon(a));
  }

  /** The only "@" is the one behind the userinfo. */
  lemma AtMeansLogin(a: Authority)
    requires WellAuthority(a)
    ensures '@' in AuthorityText(a) <==> a.userinfo.Some?
  {
    assert '@' !in Name(a) && '@' !in Colon(a);
    if a.userinfo.Some? {
      assert Login(a)[|Login(a)| - 1] == '@';
    }
  }

  // ---------------------------------------------------------- the other way round

  /** What has been read in each state. */
  function Reading(a: Authority, st: HostState): string {
    if st.UserinfoStart? || st.HostDead? then ""
    else if st.Userinfo? then match a.userinfo case None => "" case Some(t) => t
    else if st.HostStart? then Login(a)
    else if st.V6Start? then Login(a) + "["
    else if st.InHost? then Login(a) + a.host
    else if st.V6? then Login(a) + "[" + a.host
    else if st.V6End? then Login(a) + Name(a)
    else AuthorityText(a)
  }

  predicate Unnamed(a: Authority) { !a.literal && a.host == "" && a.port.None? }

  predicate Formed(a: Authority, st: HostState, found: bool) {
    !st.HostDead? && a.userinfo.Some? == found && WellUserinfo(a) &&
    (st.UserinfoStart? ==> found && a.userinfo.value == "" && Unnamed(a)) &&
    (st.Userinfo? ==> found && Unnamed(a)) &&
    (st.HostStart? ==> Unnamed(a)) &&
    (st.V6Start? ==> a.literal && a.host == "" && a.port.None?) &&
    (st.InHost? ==> !a.literal && WellHost(a) && a.port.None?) &&
    (st.V6? || st.V6End? ==> a.literal && WellHost(a) && a.port.None?) &&
    (st.PortStart? ==> WellHost(a) && a.port == Some("")) &&
    (st.Port? ==> WellHost(a) && a.port.Some? && WellPort(a))
  }

  /** One character more. */
  function HostGrown(a: Authority, st: HostState, c: char): Authority {
    match st
    case UserinfoStart => if c == '@' then a else a.(userinfo := Some([c]))
    case Userinfo => if c == '@' || a.userinfo.None? then a else a.(userinfo := Some(a.userinfo.value + [c]))
    case HostStart => if c == '[' then a.(literal := true) else a.(host := [c])
    case InHost => if c == ':' then a.(port := Some("")) else a.(host := a.host + [c])
    case V6Start => a.(host := [c])
    case V6 => if c == ']' then a else a.(host := a.host + [c])
    case V6End => a.(port := Some(""))
    case PortStart => a.(port := Some([c]))
    case Port => if a.port.None? then a else a.(port := Some(a.port.value + [c]))
    case HostDead => a
  }

  predicate HostGrows(a: Authority, st: HostState, c: char, found: bool) {
    var b, t := HostGrown(a, st, c), ParseHostChar(st, c);
    Formed(b, t, found) && Reading(b, t) == Reading(a, st) + [c]
  }

  lemma EveryOn(s: string, c: char, ok: char -> bool)
    requires Every(s, ok) && ok(c)
    ensures Every(s + [c], ok) && Every([c], ok)
  {
  }

  lemma LoginGrown(a: Authority, st: HostState, c: char, found: bool)
    requires Formed(a, st, found) && !ParseHostChar(st, c).HostDead? && (st.UserinfoStart? || st.Userinfo?)
    ensures HostGrows(a, st, c, found)
  {
    if c != '@' {
      UserinfoExact(c);
      EveryOn(a.userinfo.value, c, UserinfoText);
    }
  }

  lemma NameGrown(a: Authority, st: HostState, c: char, found: bool)
    requires Formed(a, st, found) && !ParseHostChar(st, c).HostDead? && (st.HostStart? || st.InHost?)
    ensures HostGrows(a, st, c, found)
  {
    HostExact(c);
    if HostText(c) { EveryOn(a.host, c, HostText); }
  }

  lemma LiteralGrown(a: Authority, st: HostState, c: char, found: bool)
    requires Formed(a, st, found) && !ParseHostChar(st, c).HostDead? && (st.V6Start? || st.V6? || st.V6End?)
    ensures HostGrows(a, st, c, found)
  {
    LiteralExact(c);
    if LiteralText(c) { EveryOn(a.host, c, LiteralText); }
  }

  lemma PortGrown(a: Authority, st: HostState, c: char, found: bool)
    requires Formed(a, st, found) && !ParseHostChar(st, c).HostDead? && (st.PortStart? || st.Port?)
    ensures HostGrows(a, st, c, found)
  {
    DigitsExact(c);
    EveryOn(a.port.value, c, Digit);
  }

  lemma FormedOn(a: Authority, st: HostState, c: char, found: bool)
    requires Formed(a, st, found) && !ParseHostChar(st, c).HostDead?
    ensures HostGrows(a, st, c, found)
  {
    if st.UserinfoStart? || st.Userinfo? {
      LoginGrown(a, st, c, found);
    } else if st.HostStart? || st.InHost? {
      NameGrown(a, st, c, found);
    } else if st.PortStart? || st.Port? {
      PortGrown(a, st, c, found);
    } else {
      LiteralGrown(a, st, c, found);
    }
  }

  lemma {:induction false} Takes(s: string, found: bool) returns (a: Authority)
    requires !HostWalk(HostFrom(found), s).HostDead?
    ensures var st := HostWalk(HostFrom(found), s); Formed(a, st, found) && Reading(a, st) == s
    decreases |s|
  {
    a := Authority(if found then Some("") else None, false, "", None);
    if s != "" {
      var init, c := s[..|s| - 1], s[|s| - 1];
      InitLast(s);
      a := Takes(init, found);
      FormedOn(a, HostWalk(HostFrom(found), init), c, found);
      a := HostGrown(a, HostWalk(HostFrom(found), init), c);
    }
  }

  ghost predicate IsAuthority(s: string) { exists a: Authority :: WellAuthority(a) && AuthorityText(a) == s }

  /** `http_parse_host` goes through to the end exactly on these texts. */
  lemma AuthorityExact(s: string)
    ensures HostEnds(HostWalk(HostFrom('@' in s), s)) <==> IsAuthority(s)
  {
    var st := HostWalk(HostFrom('@' in s), s);
    if HostEnds(st) {
      var a := Takes(s, '@' in s);
      assert WellAuthority(a) && AuthorityText(a) == s;
    } else if IsAuthority(s) {
      var a: Authority :| WellAuthority(a) && AuthorityText(a) == s;
      AtMeansLogin(a);
      AuthorityWalk(a);
    }
  }

  // ------------------------------------------------------------------ the whole URL

  datatype Written = Written(schema: Option<string>, authority: Option<Authority>, path: string, query: Option<string>,
                             hashes: nat, fragment: string)

  function ServerOf(x: Written): string { match x.authority case None => "" case Some(a) => AuthorityText(a) }

  function PartsOf(x: Written): Parts { Parts(x.schema, ServerOf(x), x.path, x.query, x.hashes, x.fragment) }

  function TextOf(x: Written): string { Compose(PartsOf(x)) }

  /** An authority comes behind a schema, or is the target of CONNECT. */
  predicate WellPlaced(x: Written, connect: bool) {
    (x.schema.Some? ==> !connect && Lettered(x.schema.value) && x.authority.Some?) &&
    (x.authority.Some? ==> (connect || x.schema.Some?) && WellAuthority(x.authority.value))
  }

  predicate IsWellWritten(x: Written, connect: bool) {
    WellPlaced(x, connect) && WellPath(PartsOf(x), connect) && WellQuery(PartsOf(x), connect) && WellFragment(PartsOf(x))
  }

  /** The same, which the comparison keeps the verifier from taking apart. */
  predicate WellWritten(x: Written, connect: bool) { IsWellWritten(x, connect) == true }

  lemma EveryBoth(s: string, t: string, ok: char -> bool)
    requires Every(s, ok) && Every(t, ok)
    ensures Every(s + t, ok)
  {
  }

  lemma LoginPieces(a: Authority)
    requires WellUserinfo(a)
    ensures Every(Login(a), PieceText)
  {
  }

  lemma NamePieces(a: Authority)
    requires WellHost(a)
    ensures Every(Name(a), PieceText)
  {
  }

  lemma ColonPieces(a: Authority)
    requires WellPort(a)
    ensures Every(Colon(a), PieceText)
  {
  }

  lemma NoOtherAt(a: Authority, i: nat)
    requires WellAuthority(a) && i < |AuthorityText(a)| && i + 1 != |Login(a)|
    ensures AuthorityText(a)[i] != '@'
  {
    if i < |Login(a)| {
      assert a.userinfo.value[i] in a.userinfo.value;
    } else {
      var tail := Name(a) + Colon(a);
      assert AuthorityText(a) == Login(a) + tail;
      assert tail[i - |Login(a)|] in tail;
      assert '@' !in Name(a) && '@' !in Colon(a);
    }
  }

  lemma AuthorityPieces(a: Authority)
    requires WellAuthority(a)
    ensures HttpUrlGrammar.ServerText(AuthorityText(a)) && AuthorityText(a) != ""
  {
    LoginPieces(a);
    NamePieces(a);
    ColonPieces(a);
    EveryBoth(Login(a), Name(a), PieceText);
    EveryBoth(Login(a) + Name(a), Colon(a), PieceText);
    var s := AuthorityText(a);
    forall i | 0 <= i < |s| - 1 ensures s[i] != '@' || s[i + 1] != '@' {
      if i + 1 == |Login(a)| { NoOtherAt(a, i + 1); } else { NoOtherAt(a, i); }
    }
  }

  lemma WrittenWell(x: Written, connect: bool)
    requires WellWritten(x, connect)
    ensures Well(PartsOf(x), connect)
  {
    if x.authority.Some? { AuthorityPieces(x.authority.value); }
  }

  // -------------------------------------------------- what `http_parser_parse_url` accepts

  lemma RegionIs(w: Parts, connect: bool)
    requires Well(w, connect) && w.server != ""
    ensures var s, u := Compose(w), Places(w); u.host.on && u.host.End() <= |s| && Region(s, u) == w.server
  {
    var s, a := Compose(w), |Schema(w.schema)|;
    assert s[a..a + |w.server|] == w.server;
  }

  /** A URL whose parts are known divides if its authority can be taken apart. */
  lemma PartsDivide(w: Parts, connect: bool)
    requires Well(w, connect) && Short(Compose(w))
    ensures Divides(Compose(w), connect) <==> if w.server == "" then w.schema.None? else IsAuthority(w.server)
  {
    var s, u := Compose(w), Places(w);
    PartsScanned(w, connect);
    WalkIsScan(s, connect);
    EndPast(w, connect);
    assert Cut(s, connect) == u;
    if w.server == "" {
      assert u.schema.on <==> w.schema.Some?;
    } else {
      RegionIs(w, connect);
      AuthorityExact(w.server);
    }
  }

  lemma SchemaPartCut(s: string, connect: bool)
    requires InSchemaPart(Walk(StartOf(connect), s)) && Short(s)
    ensures Cut(s, connect).schema.on && !Cut(s, connect).host.on
  {
    var t := SchemaForm(s, connect);
    SchemaScan(t);
    SchemaTailCut(t);
    SchemaTailOf(Walk(StartOf(connect), s));
    assert t + "" == t;
  }

  lemma SchemaTailOf(st: State)
    requires InSchemaPart(st)
    ensures SchemaTail(st) in ["", ":", ":/"]
  {
  }

  lemma SchemaTailCut(t: string)
    requires Scanned(t, false) == InSchema(|t|)
    ensures Scanned(t + ":", false).u == InSchema(|t|).u && Scanned(t + ":/", false).u == InSchema(|t|).u
  {
    ScannedAdds(t, ':', false);
    DelimiterScan(|t|, |t|);
    ScannedAdds(t + ":", '/', false);
    DelimiterScan(|t|, |t| + 1);
    assert t + [':'] == t + ":" && t + ":" + ['/'] == t + ":/";
  }

  lemma PartsWritten(w: Parts, connect: bool) returns (x: Written)
    requires Well(w, connect) && if w.server == "" then w.schema.None? else IsAuthority(w.server)
    ensures WellWritten(x, connect) && PartsOf(x) == w
  {
    if w.server == "" {
      x := Written(w.schema, None, w.path, w.query, w.hashes, w.fragment);
    } else {
      var a: Authority :| WellAuthority(a) && AuthorityText(a) == w.server;
      x := Written(w.schema, Some(a), w.path, w.query, w.hashes, w.fragment);
    }
    assert PartsOf(x) == w;
    assert WellPlaced(x, connect);
  }

  ghost predicate IsUrl(s: string, connect: bool) { exists x: Written :: WellWritten(x, connect) && TextOf(x) == s }

  lemma DividesWritten(s: string, connect: bool) returns (x: Written)
    requires Short(s) && Divides(s, connect)
    ensures WellWritten(x, connect) && TextOf(x) == s
  {
    if InSchemaPart(Walk(StartOf(connect), s)) {
      SchemaPartCut(s, connect);
    }
    var w := Decompose(s, connect);
    assert Built(w, s, Walk(StartOf(connect), s), connect);
    PartsDivide(w, connect);
    x := PartsWritten(w, connect);
  }

  lemma WrittenDivides(x: Written, connect: bool)
    requires WellWritten(x, connect) && Short(TextOf(x))
    ensures Divides(TextOf(x), connect)
  {
    WrittenWell(x, connect);
    PartsDivide(PartsOf(x), connect);
    if x.authority.Some? { AuthorityPieces(x.authority.value); }
  }

  /** A URL is accepted if and only if it is put together from a schema, an
      authority, a path, a query and a fragment in this way. */
  lemma UrlExact(s: string, connect: bool)
    requires Short(s)
    ensures Divides(s, connect) <==> IsUrl(s, connect)
  {
    if Divides(s, connect) {
      var x := DividesWritten(s, connect);
    } else if IsUrl(s, connect) {
      var x: Written :| WellWritten(x, connect) && TextOf(x) == s;
      WrittenDivides(x, connect);
    }
  }

  // ------------------------------------------------------------------- its fields

  function LoginRange(x: Written): Range {
    if x.authority.None? || x.authority.value.userinfo.None? then NO_RANGE
    else RangeOf(|Schema(x.schema)|, x.authority.value.userinfo.value)
  }

  function NameFrom(x: Written): nat
    requires x.authority.Some?
  {
    var a := x.authority.value; |Schema(x.schema)| + |Login(a)| + if a.literal then 1 else 0
  }

  function NameRange(x: Written): Range {
    if x.authority.None? then NO_RANGE else RangeOf(NameFrom(x), x.authority.value.host)
  }

  function PortRange(x: Written): Range {
    if x.authority.None? || x.authority.value.port.None? then NO_RANGE
    else
      var a := x.authority.value; RangeOf(|Schema(x.schema)| + |Login(a)| + |Name(a)| + 1, a.port.value)
  }

  /** The ranges of the parts as they are written; nothing is a field without a character. */
  function FieldsOf(x: Written): Found {
    Places(PartsOf(x)).(userinfo := LoginRange(x), host := NameRange(x), port := PortRange(x))
  }

  /** The same field, or none. */
  predicate SameField(r: Range, q: Range) { r.on == q.on && (r.on ==> r == q) }

  predicate SameFields(u: Found, v: Found) { forall f: UrlField :: SameField(u.Of(f), v.Of(f)) }

  /** A piece of `s` from `a` on. */
  predicate Lies(s: string, a: nat, t: string) { a + |t| <= |s| && s[a..a + |t|] == t }

  lemma LiesAt(s: string, a: nat, t: string, k: nat)
    requires Lies(s, a, t) && k < |t|
    ensures s[a + k] == t[k]
  {
    assert s[a..a + |t|][k] == t[k];
  }

  lemma LiesParts(s: string, a: nat, t: string, v: string)
    requires Lies(s, a, t + v)
    ensures Lies(s, a, t) && Lies(s, a + |t|, v)
  {
    var n := a + |t + v|;
    assert s[a..a + |t|] == s[a..n][..|t|] == t && s[a + |t|..n] == s[a..n][|t|..] == v;
  }

  /** The first character of `s` from `a` on that is not of a class. */
  lemma FirstOther(s: string, a: nat, e: nat, n: nat, ok: char -> bool)
    requires All(s, a, e, ok) && e < |s| && !ok(s[e])
    requires All(s, a, n, ok) && n < |s| && !ok(s[n])
    ensures e == n
  {
  }

  lemma EveryLies(s: string, a: nat, t: string, ok: char -> bool, also: char -> bool)
    requires Lies(s, a, t) && Every(t, ok) && forall c: char :: ok(c) ==> also(c)
    ensures All(s, a, a + |t|, also)
  {
    forall k | a <= k < a + |t| ensures also(s[k]) {
      LiesAt(s, a, t, k - a);
      assert t[k - a] in t;
    }
  }

  lemma LoginIs(s: string, u: Found, a: nat, au: Authority)
    requires Lies(s, a, Login(au)) && WellUserinfo(au) && UserinfoLaid(s, u, a, au.userinfo.Some?)
    ensures HostBegin(u, a, au.userinfo.Some?) == a + |Login(au)|
    ensures SameField(u.userinfo, if au.userinfo.Some? then RangeOf(a, au.userinfo.value) else NO_RANGE)
  {
    if au.userinfo.Some? {
      var t := au.userinfo.value;
      LiesParts(s, a, t, "@");
      LiesAt(s, a + |t|, "@", 0);
      forall c: char | UserinfoText(c) ensures IsUserinfoChar(c) { UserinfoExact(c); }
      EveryLies(s, a, t, UserinfoText, IsUserinfoChar);
      UserinfoExact('@');
      if u.userinfo.on { FirstOther(s, a, u.userinfo.End(), a + |t|, IsUserinfoChar); }
    }
  }

  lemma TextClasses()
    ensures forall c: char :: HostText(c) ==> IsHostChar(c)
    ensures forall c: char :: LiteralText(c) ==> V6Text(c)
    ensures forall c: char :: Digit(c) ==> IsNum(c)
  {
    forall c: char ensures HostText(c) ==> IsHostChar(c) { HostExact(c); }
    forall c: char ensures LiteralText(c) ==> V6Text(c) { LiteralExact(c); }
    forall c: char ensures Digit(c) ==> IsNum(c) { DigitsExact(c); }
  }

  /** What follows the name ends it. */
  lemma NameIs(s: string, u: Found, h: nat, au: Authority, e: nat, end: nat)
    requires !au.literal && WellHost(au) && Lies(s, h, au.host) && HostLaid(s, u, h, e)
    requires end <= |s| && (e == end || (e < end && s[e] == ':'))
    requires var n := h + |au.host|; n == end || (n < end && s[n] == ':')
    ensures e == h + |au.host| && u.host.off == h && u.host.len == |au.host|
  {
    TextClasses();
    EveryLies(s, h, au.host, HostText, IsHostChar);
    assert s[h] != '[' by { assert IsHostChar(s[h]); }
    assert !IsHostChar(':');
  }

  lemma LiteralIs(s: string, u: Found, h: nat, au: Authority, e: nat)
    requires au.literal && WellHost(au) && Lies(s, h, Name(au)) && HostLaid(s, u, h, e)
    ensures e == h + |Name(au)| && u.host.off == h + 1 && u.host.len == |au.host|
  {
    var n := h + 1 + |au.host|;
    TextClasses();
    LiesParts(s, h, "[" + au.host, "]");
    LiesParts(s, h, "[", au.host);
    LiesAt(s, h, "[", 0);
    LiesAt(s, n, "]", 0);
    EveryLies(s, h + 1, au.host, LiteralText, V6Text);
    assert !IsHostChar('[') && !V6Text(']');
    assert u.host.off == h + 1;
    FirstOther(s, h + 1, e - 1, n, V6Text);
  }

  lemma HostIs(s: string, u: Found, h: nat, au: Authority, end: nat)
    requires WellHost(au) && WellPort(au) && Lies(s, h, Name(au) + Colon(au)) && end == h + |Name(au) + Colon(au)|
    requires HostLaid(s, u, h, HostEnd(u, h)) && PortLaid(s, u, HostEnd(u, h), end)
    ensures HostEnd(u, h) == h + |Name(au)| && u.host.len == |au.host| && u.host.off == h + if au.literal then 1 else 0
  {
    LiesParts(s, h, Name(au), Colon(au));
    if au.literal {
      LiteralIs(s, u, h, au, HostEnd(u, h));
    } else {
      if au.port.Some? { LiesAt(s, h + |au.host|, Colon(au), 0); }
      NameIs(s, u, h, au, HostEnd(u, h), end);
    }
  }

  lemma PortIs(s: string, u: Found, n: nat, au: Authority, end: nat)
    requires WellPort(au) && end == n + |Colon(au)| && PortLaid(s, u, n, end)
    ensures SameField(u.port, if au.port.Some? then RangeOf(n + 1, au.port.value) else NO_RANGE)
  {
  }

  lemma AuthorityFields(s: string, u: Found, a: nat, au: Authority, end: nat)
    requires WellAuthority(au) && Lies(s, a, AuthorityText(au)) && end == a + |AuthorityText(au)|
    requires AuthorityLaid(s, u, a, end, au.userinfo.Some?) && u.host.on
    ensures SameField(u.userinfo, if au.userinfo.Some? then RangeOf(a, au.userinfo.value) else NO_RANGE)
    ensures SameField(u.host, RangeOf(a + |Login(au)| + if au.literal then 1 else 0, au.host))
    ensures SameField(u.port, if au.port.Some? then RangeOf(a + |Login(au)| + |Name(au)| + 1, au.port.value) else NO_RANGE)
  {
    var h := a + |Login(au)|;
    Regrouped(Login(au), Name(au), Colon(au));
    LiesParts(s, a, Login(au), Name(au) + Colon(au));
    LoginIs(s, u, a, au);
    HostIs(s, u, h, au, end);
    PortIs(s, u, h + |Name(au)|, au, end);
  }

  lemma ServerLies(w: Parts)
    ensures Lies(Compose(w), |Schema(w.schema)|, w.server)
  {
    var tail := w.path + Query(w.query) + Hashes(w.hashes) + w.fragment;
    assert Compose(w) == Schema(w.schema) + w.server + tail;
    LiesBetween(Schema(w.schema), w.server, tail);
  }

  lemma LiesBetween(p: string, t: string, q: string)
    ensures Lies(p + t + q, |p|, t)
  {
  }

  lemma ByFields(u: Found, v: Found)
    requires SameField(u.schema, v.schema) && SameField(u.userinfo, v.userinfo) && SameField(u.host, v.host)
    requires SameField(u.port, v.port) && SameField(u.path, v.path) && SameField(u.query, v.query) && SameField(u.fragment, v.fragment)
    ensures SameFields(u, v)
  {
  }

  lemma ServerFieldsExact(x: Written, u: Found)
    requires x.authority.Some? && WellAuthority(x.authority.value) && u.host.on
    requires var a, t := |Schema(x.schema)|, AuthorityText(x.authority.value);
             AuthorityLaid(TextOf(x), u, a, a + |t|, '@' in t)
    ensures SameField(u.userinfo, LoginRange(x)) && SameField(u.host, NameRange(x)) && SameField(u.port, PortRange(x))
  {
    var au, a := x.authority.value, |Schema(x.schema)|;
    AuthorityPieces(au);
    ServerLies(PartsOf(x));
    AtMeansLogin(au);
    AuthorityFields(TextOf(x), u, a, au, a + |AuthorityText(au)|);
  }

  lemma LaidAt(s: string, cut: Found, u: Found, a: nat, server: string)
    requires Parsed(s, cut, u) && u.host.on && cut.host == RangeOf(a, server) && cut.host.on
    requires cut.host.End() <= |s| && Region(s, cut) == server
    ensures AuthorityLaid(s, u, a, a + |server|, '@' in server)
  {
  }

  /** Whatever fields the parser finds in a URL are the parts it was written with. */
  lemma FieldsExact(x: Written, connect: bool, u: Found)
    requires WellWritten(x, connect) && Short(TextOf(x)) && Parsed(TextOf(x), Cut(TextOf(x), connect), u)
    ensures SameFields(u, FieldsOf(x))
  {
    var s, w := TextOf(x), PartsOf(x);
    WrittenWell(x, connect);
    PartsScanned(w, connect);
    assert Cut(s, connect) == Places(w);
    PlacesOn(x);
    if x.authority.Some? {
      AuthorityPieces(x.authority.value);
      RegionIs(w, connect);
      LaidAt(s, Places(w), u, |Schema(x.schema)|, ServerOf(x));
      ServerFieldsExact(x, u);
    }
    ByFields(u, FieldsOf(x));
  }

  lemma PlacesOn(x: Written)
    requires x.authority.Some? ==> WellAuthority(x.authority.value)
    ensures var u := Places(PartsOf(x)); u.host.on == x.authority.Some? && u.port == NO_RANGE && u.userinfo == NO_RANGE
    ensures x.authority.None? ==> FieldsOf(x) == Places(PartsOf(x))
  {
    if x.authority.Some? { AuthorityPieces(x.authority.value); }
  }

  /** For CONNECT there must be a host and a port, and nothing else in a field. */
  predicate JustHostAndPort(x: Written) {
    x.authority.Some? && x.authority.value.port.Some? && x.authority.value.userinfo in {None, Some("")} &&
    x.path == "" && x.query in {None, Some("")} && x.fragment == ""
  }

  lemma HostAndPortExact(x: Written, connect: bool, u: Found)
    requires WellWritten(x, connect) && connect && SameFields(u, FieldsOf(x))
    ensures HostAndPort(u) <==> JustHostAndPort(x)
  {
    forall f: UrlField ensures SameField(u.Of(f), FieldsOf(x).Of(f)) {}
    var v := FieldsOf(x);
    assert SameField(u.Of(HOST), v.Of(HOST)) && SameField(u.Of(PORT), v.Of(PORT)) && SameField(u.Of(SCHEMA), v.Of(SCHEMA));
    assert SameField(u.Of(PATH), v.Of(PATH)) && SameField(u.Of(QUERY), v.Of(QUERY)) && SameField(u.Of(FRAGMENT), v.Of(FRAGMENT));
    assert SameField(u.Of(USERINFO), v.Of(USERINFO));
  }

  /** `http_parser_parse_url` on a URL put together from its parts. */
  method ParseWritten(x: Written, behind: string, connect: bool) returns (bad: bool, found: Found, port: nat)
    requires WellWritten(x, connect) && Short(TextOf(x))
    ensures SameFields(found, FieldsOf(x))
    ensures var r := PortRange(x);
            (bad <==> (connect && !JustHostAndPort(x)) || (r.on && Strtoul(0, TextOf(x) + behind, r.off) > 0xffff)) &&
            (!bad ==> port == if r.on then Strtoul(0, TextOf(x) + behind, r.off) else 0)
  {
    var u: HttpUrl.Url := new HttpUrl.Url();
    bad := u.Parse(TextOf(x), behind, connect);
    found, port := u.found, u.port;
    WrittenDivides(x, connect);
    FieldsExact(x, connect, found);
    if connect { HostAndPortExact(x, connect, found); }
    assert SameField(found.Of(PORT), FieldsOf(x).Of(PORT));
  }
}
