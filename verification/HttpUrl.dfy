/** `http_parser_parse_url`: a URL cut into its fields. */
module HttpUrl {
  import opened Common
  import opened HttpTypes
  import opened HttpStep
  import opened HttpFraming

  datatype UrlField = SCHEMA | HOST | PORT | PATH | QUERY | FRAGMENT | USERINFO

  /** A bit of `field_set` and an entry of `field_data`. */
  datatype Range = Range(on: bool, off: nat, len: nat) {
    function End(): nat { off + len }

    /** One more byte. */
    function Longer(): Range { this.(len := (len + 1) % 0x1_0000) }
  }

  const NO_RANGE: Range := Range(false, 0, 0)

  /** The fields found and where they are. */
  datatype Found = Found(schema: Range, host: Range, port: Range, path: Range, query: Range, fragment: Range, userinfo: Range) {
    function Of(f: UrlField): Range {
      match f
      case SCHEMA => schema case HOST => host case PORT => port case PATH => path
      case QUERY => query case FRAGMENT => fragment case USERINFO => userinfo
    }

    function Put(f: UrlField, r: Range): Found {
      match f
      case SCHEMA => this.(schema := r) case HOST => this.(host := r) case PORT => this.(port := r) case PATH => this.(path := r)
      case QUERY => this.(query := r) case FRAGMENT => this.(fragment := r) case USERINFO => this.(userinfo := r)
    }

    function Longer(f: UrlField): Found { Put(f, Of(f).Longer()) }

    /** No field from the path on. */
    predicate NoTail() { !path.on && !query.on && !fragment.on }
  }

  const NOTHING: Found := Found(NO_RANGE, NO_RANGE, NO_RANGE, NO_RANGE, NO_RANGE, NO_RANGE, NO_RANGE)

  /** A field of one byte at `i`; the struct has 16 bits for it. */
  function NewRange(i: nat): Range { Range(true, i % 0x1_0000, 1) }

  // ------------------------------------------------------ the whole URL

  /** The state after all of `s`; dead once refused. */
  function Walk(from: State, s: string): State
    decreases |s|
  {
    if s == "" then from else ParseUrlChar(Walk(from, s[..|s| - 1]), s[|s| - 1])
  }

  lemma WalkSnoc(from: State, s: string, i: nat)
    requires i < |s|
    ensures Walk(from, s[..i + 1]) == ParseUrlChar(Walk(from, s[..i]), s[i])
  {
    assert s[..i + 1][..i] == s[..i];
  }

  lemma {:induction false} DeadStays(from: State, s: string, i: nat)
    requires i <= |s| && Walk(from, s[..i]).Dead?
    ensures Walk(from, s).Dead?
    decreases |s| - i
  {
    if i < |s| {
      WalkSnoc(from, s, i);
      DeadStays(from, s, i + 1);
    } else {
      assert s[..i] == s;
    }
  }

  function StartOf(connect: bool): State { if connect then ReqServerStart else ReqSpacesBeforeUrl }

  /** The characters of an authority, before it is taken apart. */
  predicate ServerText(ch: char) { IsUserinfoChar(ch) || ch == '[' || ch == ']' || ch == '@' }

  predicate All(s: string, i: nat, j: nat, ok: char -> bool) {
    i <= j <= |s| && forall k :: i <= k < j ==> ok(s[k])
  }

  predicate QueryText(ch: char) { IsUrlChar(ch) || ch == '?' }

  predicate IsHash(ch: char) { ch == '#' }

  predicate FragmentText(ch: char) { IsUrlChar(ch) || ch == '?' || ch == '#' }

  /** After the "://" of the schema, if there is one. */
  function AuthorityStart(u: Found): nat { if u.schema.on then u.schema.len + 3 else 0 }

  function AuthorityEnd(u: Found): nat { if u.host.on then u.host.End() else AuthorityStart(u) }

  function PathEnd(u: Found): nat { if u.path.on then u.path.End() else AuthorityEnd(u) }

  function QueryEnd(s: string, u: Found): nat {
    if u.query.on then u.query.End()
    else if PathEnd(u) < |s| && s[PathEnd(u)] == '?' then PathEnd(u) + 1
    else PathEnd(u)
  }

  predicate SchemaLaid(s: string, u: Found) {
    u.schema.on ==>
      var r := u.schema; r.off == 0 && r.len > 0 && All(s, 0, r.len, IsAlpha) && r.len + 3 <= |s| && s[r.len..r.len + 3] == "://"
  }

  predicate ServerLaid(s: string, u: Found) {
    u.host.on ==>
      var r := u.host; r.off == AuthorityStart(u) && r.len > 0 && All(s, r.off, r.End(), ServerText)
  }

  predicate PathText(s: string, r: Range) {
    r.len > 0 && r.End() <= |s| && (s[r.off] == '/' || (s[r.off] == '*' && r.off == 0)) && All(s, r.off, r.End(), IsUrlChar)
  }

  predicate PathLaid(s: string, u: Found) {
    u.path.on ==> u.path.off == AuthorityEnd(u) && PathText(s, u.path)
  }

  predicate QueryLaid(s: string, u: Found) {
    u.query.on ==>
      var r := u.query;
      r.off == PathEnd(u) + 1 && r.len > 0 && All(s, r.off, r.End(), QueryText) && s[PathEnd(u)] == '?'
  }

  predicate FragmentLaid(s: string, u: Found) {
    u.fragment.on ==>
      var r := u.fragment;
      QueryEnd(s, u) < r.off && r.len > 0 && All(s, QueryEnd(s, u), r.off, IsHash) && All(s, r.off, r.End(), FragmentText)
  }

  /** Every field is where the one before it ends, but for the delimiters. */
  predicate Laid(s: string, u: Found) {
    SchemaLaid(s, u) && ServerLaid(s, u) && PathLaid(s, u) && QueryLaid(s, u) && FragmentLaid(s, u) &&
    !u.port.on && !u.userinfo.on
  }

  /** How far the fields of a URL read up to `i` reach, in each state. */
  predicate Reaches(s: string, u: Found, st: State, i: nat, connect: bool) {
    i <= |s| && (Writes(st) || Skips(st) || st.ReqSpacesBeforeUrl?) &&
    (st.ReqSpacesBeforeUrl? ==> i == 0 && u == NOTHING && !connect) &&
    (st.ReqSchema? ==> !connect && JustSchema(u) && u.schema == Range(true, 0, i) && i > 0 && All(s, 0, i, IsAlpha)) &&
    (st.ReqSchemaSlash? ==> !connect && SchemaPart(s, u, i, ":")) &&
    (st.ReqSchemaSlashSlash? ==> !connect && SchemaPart(s, u, i, ":/")) &&
    (st.ReqServerStart? ==> if connect then i == 0 && u == NOTHING else SchemaPart(s, u, i, "://")) &&
    (st.ReqServer? || st.ReqServerWithAt? ==> InServer(s, u, i)) &&
    (st.ReqPath? ==> Laid(s, u) && u.path.on && !u.query.on && !u.fragment.on && PathEnd(u) == i) &&
    (st.ReqQueryStart? ==> Laid(s, u) && !u.query.on && !u.fragment.on && PathEnd(u) + 1 == i && s[i - 1] == '?') &&
    (st.ReqQuery? ==> Laid(s, u) && u.query.on && !u.fragment.on && u.query.End() == i) &&
    (st.ReqFragmentStart? ==> InFragmentStart(s, u, i)) &&
    (st.ReqFragment? ==> Laid(s, u) && AuthorityEnd(u) < QueryEnd(s, u) && u.fragment.on && u.fragment.End() == i)
  }

  predicate InFragmentStart(s: string, u: Found, i: nat) {
    Laid(s, u) && !u.fragment.on && AuthorityEnd(u) < QueryEnd(s, u) < i && All(s, QueryEnd(s, u), i, IsHash)
  }

  /** The delimiters. */
  predicate Skips(st: State) {
    st.ReqSchemaSlash? || st.ReqSchemaSlashSlash? || st.ReqServerStart? || st.ReqQueryStart? || st.ReqFragmentStart?
  }

  predicate JustSchema(u: Found) { u.schema.on && !u.host.on && u.NoTail() && !u.port.on && !u.userinfo.on }

  predicate SchemaPart(s: string, u: Found, i: nat, rest: string) {
    var r := u.schema;
    JustSchema(u) && r.off == 0 && r.len > 0 && All(s, 0, r.len, IsAlpha) && r.len + |rest| == i <= |s| && s[r.len..i] == rest
  }

  predicate InServer(s: string, u: Found, i: nat) {
    Laid(s, u) && u.host.on && u.NoTail() && u.host.End() == i
  }

  /** The field that a state writes to. */
  function FieldOf(st: State): (f: UrlField)
    requires Writes(st)
  {
    match st
    case ReqSchema => SCHEMA
    case ReqServer => HOST
    case ReqServerWithAt => HOST
    case ReqPath => PATH
    case ReqQuery => QUERY
    case _ => FRAGMENT
  }

  predicate Writes(st: State) {
    st.ReqSchema? || st.ReqServer? || st.ReqServerWithAt? || st.ReqPath? || st.ReqQuery? || st.ReqFragment?
  }

  /** What one more byte does to the fields. */
  function Placed(u: Found, st: State, same: bool, i: nat): Found {
    if !Writes(st) then u
    else if same then u.Longer(FieldOf(st))
    else u.Put(FieldOf(st), NewRange(i))
  }

  /** The state writes on to the field it was writing. */
  predicate Same(from: State, to: State) { Writes(from) && Writes(to) && FieldOf(from) == FieldOf(to) }

  predicate Short(s: string) { |s| <= 0xffff }

  /** One more byte is refused, or its fields are where they should be. */
  predicate GoesOn(s: string, u: Found, st: State, i: nat, connect: bool)
    requires i < |s|
  {
    GoesTo(s, u, st, i, connect, ParseUrlChar(st, s[i]))
  }

  predicate GoesTo(s: string, u: Found, st: State, i: nat, connect: bool, t: State) {
    t.Dead? || Reaches(s, Placed(u, t, Same(st, t), i), t, i + 1, connect)
  }

  /** The same, which the comparison keeps the verifier from taking apart. */
  predicate Goes(s: string, u: Found, st: State, i: nat, connect: bool)
    requires i < |s|
  {
    GoesOn(s, u, st, i, connect) == true
  }

  lemma SchemaStep(s: string, u: Found, st: State, i: nat, connect: bool)
    requires Short(s) && i < |s| && Reaches(s, u, st, i, connect)
    requires st.ReqSpacesBeforeUrl? || st.ReqSchema? || st.ReqSchemaSlash? || st.ReqSchemaSlashSlash?
    ensures Goes(s, u, st, i, connect)
  {
    var n := u.schema.len;
    match st {
      case ReqSchema => assert s[n..i + 1] == [s[i]];
      case ReqSchemaSlash => assert s[n..i + 1] == s[n..i] + [s[i]];
      case ReqSchemaSlashSlash => assert s[n..i + 1] == s[n..i] + [s[i]];
      case _ =>
    }
  }

  lemma ServerOn(s: string, u: Found, st: State, i: nat, connect: bool)
    requires Short(s) && i < |s| && InServer(s, u, i) && ServerText(s[i])
    ensures InServer(s, u.Longer(HOST), i + 1)
  {
  }

  lemma ServerToPath(s: string, u: Found, i: nat, connect: bool)
    requires Short(s) && i < |s| && InServer(s, u, i) && s[i] == '/'
    ensures Reaches(s, u.Put(PATH, NewRange(i)), ReqPath, i + 1, connect)
  {
  }

  lemma ServerToQuery(s: string, u: Found, i: nat, connect: bool)
    requires Short(s) && i < |s| && InServer(s, u, i) && s[i] == '?'
    ensures Reaches(s, u, ReqQueryStart, i + 1, connect)
  {
  }

  /** Where a byte of the authority, or the one behind it, leads. */
  lemma ServerNext(st: State, ch: char)
    requires st.ReqServer? || st.ReqServerWithAt? || st.ReqServerStart?
    ensures var t := ParseUrlChar(st, ch);
            if ServerText(ch) then t.ReqServer? || t.ReqServerWithAt? || t.Dead?
            else if ch == '/' then t.ReqPath?
            else if ch == '?' then t.ReqQueryStart?
            else t.Dead?
  {
  }

  lemma ServerGoes(s: string, u: Found, st: State, i: nat, connect: bool, t: State)
    requires Short(s) && i < |s| && InServer(s, u, i) && (st.ReqServer? || st.ReqServerWithAt?)
    requires if ServerText(s[i]) then t.ReqServer? || t.ReqServerWithAt? || t.Dead?
             else if s[i] == '/' then t.ReqPath?
             else if s[i] == '?' then t.ReqQueryStart?
             else t.Dead?
    ensures GoesTo(s, u, st, i, connect, t)
  {
    if t.ReqPath? {
      ServerToPath(s, u, i, connect);
    } else if t.ReqQueryStart? {
      ServerToQuery(s, u, i, connect);
    } else if !t.Dead? {
      ServerOn(s, u, st, i, connect);
    }
  }

  lemma ServerStep(s: string, u: Found, st: State, i: nat, connect: bool)
    requires Short(s) && i < |s| && Reaches(s, u, st, i, connect)
    requires st.ReqServer? || st.ReqServerWithAt?
    ensures Goes(s, u, st, i, connect)
  {
    ServerNext(st, s[i]);
    ServerGoes(s, u, st, i, connect, ParseUrlChar(st, s[i]));
  }

  lemma ServerStartStep(s: string, u: Found, st: State, i: nat, connect: bool)
    requires Short(s) && i < |s| && Reaches(s, u, st, i, connect) && st.ReqServerStart?
    ensures Goes(s, u, st, i, connect)
  {
    ServerNext(st, s[i]);
    ServerBegins(s, u, st, i, connect, ParseUrlChar(st, s[i]));
  }

  /** No byte of the authority has been read. */
  predicate AtServer(s: string, u: Found, i: nat) {
    Laid(s, u) && !u.host.on && u.NoTail() && AuthorityStart(u) == i <= |s|
  }

  lemma ServerStartIs(s: string, u: Found, i: nat, connect: bool)
    requires Reaches(s, u, ReqServerStart, i, connect)
    ensures AtServer(s, u, i)
  {
  }

  lemma BeginsHost(s: string, u: Found, i: nat)
    requires Short(s) && i < |s| && AtServer(s, u, i) && ServerText(s[i])
    ensures InServer(s, u.Put(HOST, NewRange(i)), i + 1)
  {
  }

  lemma BeginsPath(s: string, u: Found, i: nat, connect: bool)
    requires Short(s) && i < |s| && AtServer(s, u, i) && s[i] == '/'
    ensures Reaches(s, u.Put(PATH, NewRange(i)), ReqPath, i + 1, connect)
  {
  }

  lemma BeginsQuery(s: string, u: Found, i: nat, connect: bool)
    requires Short(s) && i < |s| && AtServer(s, u, i) && s[i] == '?'
    ensures Reaches(s, u, ReqQueryStart, i + 1, connect)
  {
  }

  lemma ServerBegins(s: string, u: Found, st: State, i: nat, connect: bool, t: State)
    requires Short(s) && i < |s| && Reaches(s, u, st, i, connect) && st.ReqServerStart?
    requires if ServerText(s[i]) then t.ReqServer? || t.ReqServerWithAt? || t.Dead?
             else if s[i] == '/' then t.ReqPath?
             else if s[i] == '?' then t.ReqQueryStart?
             else t.Dead?
    ensures GoesTo(s, u, st, i, connect, t)
  {
    ServerStartIs(s, u, i, connect);
    if t.ReqPath? {
      BeginsPath(s, u, i, connect);
    } else if t.ReqQueryStart? {
      BeginsQuery(s, u, i, connect);
    } else if !t.Dead? {
      BeginsHost(s, u, i);
    }
  }

  lemma PathStep(s: string, u: Found, st: State, i: nat, connect: bool)
    requires Short(s) && i < |s| && Reaches(s, u, st, i, connect) && st.ReqPath?
    ensures Goes(s, u, st, i, connect)
  {
  }

  lemma QueryStartStep(s: string, u: Found, st: State, i: nat, connect: bool)
    requires Short(s) && i < |s| && Reaches(s, u, st, i, connect) && st.ReqQueryStart?
    ensures Goes(s, u, st, i, connect)
  {
  }

  lemma QueryStep(s: string, u: Found, st: State, i: nat, connect: bool)
    requires Short(s) && i < |s| && Reaches(s, u, st, i, connect) && st.ReqQuery?
    ensures Goes(s, u, st, i, connect)
  {
  }

  lemma FragmentStartStep(s: string, u: Found, st: State, i: nat, connect: bool)
    requires Short(s) && i < |s| && Reaches(s, u, st, i, connect) && st.ReqFragmentStart?
    ensures Goes(s, u, st, i, connect)
  {
  }

  lemma FragmentStep(s: string, u: Found, st: State, i: nat, connect: bool)
    requires Short(s) && i < |s| && Reaches(s, u, st, i, connect) && st.ReqFragment?
    ensures Goes(s, u, st, i, connect)
  {
  }

  lemma UrlStep(s: string, u: Found, st: State, i: nat, connect: bool)
    requires Short(s) && i < |s| && Reaches(s, u, st, i, connect)
    ensures Goes(s, u, st, i, connect)
  {
    if st.ReqServerStart? {
      ServerStartStep(s, u, st, i, connect);
    } else if st.ReqServer? || st.ReqServerWithAt? {
      ServerStep(s, u, st, i, connect);
    } else if st.ReqPath? {
      PathStep(s, u, st, i, connect);
    } else if st.ReqQueryStart? {
      QueryStartStep(s, u, st, i, connect);
    } else if st.ReqQuery? {
      QueryStep(s, u, st, i, connect);
    } else if st.ReqFragmentStart? {
      FragmentStartStep(s, u, st, i, connect);
    } else if st.ReqFragment? {
      FragmentStep(s, u, st, i, connect);
    } else {
      SchemaStep(s, u, st, i, connect);
    }
  }

  // -------------------------------------------------------- the authority

  datatype HostState =
    | HostDead | UserinfoStart | Userinfo | HostStart | V6Start | InHost | V6 | V6End | PortStart | Port

  /** `http_parse_host_char` */
  function ParseHostChar(s: HostState, ch: char): HostState {
    match s
    case Userinfo => if ch == '@' then HostStart else if IsUserinfoChar(ch) then Userinfo else HostDead
    case UserinfoStart => if ch == '@' then HostStart else if IsUserinfoChar(ch) then Userinfo else HostDead
    case HostStart => if ch == '[' then V6Start else if IsHostChar(ch) then InHost else HostDead
    case InHost => if IsHostChar(ch) then InHost else if ch == ':' then PortStart else HostDead
    case V6End => if ch == ':' then PortStart else HostDead
    case V6 => if ch == ']' then V6End else V6Char(ch)
    case V6Start => V6Char(ch)
    case Port => if IsNum(ch) then Port else HostDead
    case PortStart => if IsNum(ch) then Port else HostDead
    case HostDead => HostDead
  }

  function V6Char(ch: char): HostState { if V6Text(ch) then V6 else HostDead }

  predicate V6Text(ch: char) { IsHex(ch) || ch == ':' || ch == '.' }

  function HostWalk(from: HostState, s: string): HostState
    decreases |s|
  {
    if s == "" then from else ParseHostChar(HostWalk(from, s[..|s| - 1]), s[|s| - 1])
  }

  lemma HostWalkSnoc(from: HostState, s: string, a: nat, i: nat)
    requires a <= i < |s|
    ensures HostWalk(from, s[a..i + 1]) == ParseHostChar(HostWalk(from, s[a..i]), s[i])
  {
    var t := s[a..i + 1];
    assert t[..|t| - 1] == s[a..i] && t[|t| - 1] == s[i];
  }

  lemma {:induction false} HostDeadStays(from: HostState, s: string, a: nat, i: nat, end: nat)
    requires a <= i <= end <= |s| && HostWalk(from, s[a..i]).HostDead?
    ensures HostWalk(from, s[a..end]).HostDead?
    decreases end - i
  {
    if i < end {
      HostWalkSnoc(from, s, a, i);
      HostDeadStays(from, s, a, i + 1, end);
    }
  }

  predicate HostEnds(s: HostState) { s.InHost? || s.V6End? || s.Port? }

  /** Where the host begins, behind the "@" if there is one. */
  function HostBegin(u: Found, a: nat, found: bool): nat {
    if !found then a else if u.userinfo.on then u.userinfo.End() + 1 else a + 1
  }

  predicate UserinfoLaid(s: string, u: Found, a: nat, found: bool) {
    var h := HostBegin(u, a, found);
    (u.userinfo.on ==>
       found && u.userinfo.off == a && u.userinfo.len > 0 && All(s, a, u.userinfo.End(), IsUserinfoChar)) &&
    (found ==> 0 < h <= |s| && s[h - 1] == '@')
  }

  /** A name or a literal in brackets, ending at `e`. */
  predicate HostLaid(s: string, u: Found, h: nat, e: nat) {
    var r := u.host;
    r.len > 0 &&
    if r.off == h then e == r.End() && All(s, h, e, IsHostChar)
    else r.off == h + 1 && e == r.End() + 1 <= |s| && All(s, h + 1, r.End(), V6Text) && s[h] == '[' && s[e - 1] == ']'
  }

  function HostEnd(u: Found, h: nat): nat { if u.host.off == h then u.host.End() else u.host.End() + 1 }

  predicate PortLaid(s: string, u: Found, e: nat, end: nat) {
    if u.port.on then
      u.port.off == e + 1 && u.port.len > 0 && u.port.End() == end && end <= |s| &&
      s[e] == ':' && All(s, e + 1, end, IsNum)
    else e == end
  }

  /** The authority from `a` to `end`, taken apart. */
  predicate AuthorityLaid(s: string, u: Found, a: nat, end: nat, found: bool) {
    var h := HostBegin(u, a, found);
    UserinfoLaid(s, u, a, found) && HostLaid(s, u, h, HostEnd(u, h)) && PortLaid(s, u, HostEnd(u, h), end)
  }

  /** What has been found of the authority at `i`, in each state. */
  predicate HostReaches(s: string, u: Found, st: HostState, a: nat, i: nat, found: bool) {
    var h := HostBegin(u, a, found);
    a <= i <= |s| &&
    match st
    case UserinfoStart => found && i == a && !u.userinfo.on && !u.port.on && u.host.len == 0
    case Userinfo =>
      found && u.userinfo.on && !u.port.on && u.host.len == 0 && i == u.userinfo.End() &&
      u.userinfo.off == a && a < i && All(s, a, i, IsUserinfoChar)
    case HostStart => UserinfoLaid(s, u, a, found) && i == h && !u.port.on && u.host.len == 0
    case V6Start => UserinfoLaid(s, u, a, found) && i == h + 1 && s[h] == '[' && !u.port.on && u.host.len == 0
    case InHost => UserinfoLaid(s, u, a, found) && u.host.off == h && HostLaid(s, u, h, i) && !u.port.on
    case V6 =>
      UserinfoLaid(s, u, a, found) && u.host.off == h + 1 && u.host.len > 0 && i == u.host.End() &&
      All(s, h + 1, i, V6Text) && s[h] == '[' && !u.port.on
    case V6End => UserinfoLaid(s, u, a, found) && u.host.off == h + 1 && HostLaid(s, u, h, i) && !u.port.on
    case PortStart =>
      UserinfoLaid(s, u, a, found) && i > 0 && HostEnd(u, h) == i - 1 && HostLaid(s, u, h, i - 1) && s[i - 1] == ':' && !u.port.on
    case Port => AuthorityLaid(s, u, a, i, found) && u.port.on
    case HostDead => false
  }

  /** What one more byte does to the fields. */
  function HostPlaced(u: Found, from: HostState, to: HostState, i: nat): Found {
    match to
    case InHost => HostByte(u, from == to, i)
    case V6 => HostByte(u, from == to, i)
    case Port => if from == to then u.Longer(PORT) else u.Put(PORT, NewRange(i))
    case Userinfo => if from == to then u.Longer(USERINFO) else u.Put(USERINFO, NewRange(i))
    case _ => u
  }

  function HostByte(u: Found, same: bool, i: nat): Found {
    if same then u.Longer(HOST) else u.(host := u.host.Longer().(off := i % 0x1_0000))
  }

  predicate HostGoes(s: string, u: Found, st: HostState, a: nat, i: nat, found: bool)
    requires i < |s|
  {
    var t := ParseHostChar(st, s[i]);
    t.HostDead? || HostReaches(s, HostPlaced(u, st, t, i), t, a, i + 1, found)
  }

  lemma UserinfoStartStep(s: string, u: Found, a: nat, i: nat, found: bool)
    requires Short(s) && i < |s| && HostReaches(s, u, UserinfoStart, a, i, found)
    ensures HostGoes(s, u, UserinfoStart, a, i, found)
  {
  }

  lemma UserinfoEnd(s: string, u: Found, a: nat, i: nat, found: bool)
    requires i < |s| && HostReaches(s, u, Userinfo, a, i, found) && s[i] == '@'
    ensures UserinfoLaid(s, u, a, found) && HostBegin(u, a, found) == i + 1
  {
  }

  lemma UserinfoOn(s: string, u: Found, a: nat, i: nat, found: bool)
    requires Short(s) && i < |s| && HostReaches(s, u, Userinfo, a, i, found) && IsUserinfoChar(s[i])
    ensures HostReaches(s, u.Longer(USERINFO), Userinfo, a, i + 1, found)
  {
    LongerBy(u.userinfo);
    AllSnoc(s, a, i, IsUserinfoChar);
    assert u.Longer(USERINFO) == u.(userinfo := u.userinfo.Longer());
  }

  lemma LongerBy(r: Range)
    requires r.len < 0xFFFF
    ensures r.Longer() == Range(r.on, r.off, r.len + 1) && r.Longer().End() == r.End() + 1
  {
  }

  lemma AllSnoc(s: string, i: nat, j: nat, ok: char -> bool)
    requires All(s, i, j, ok) && j < |s| && ok(s[j])
    ensures All(s, i, j + 1, ok)
  {
  }

  lemma UserinfoStep(s: string, u: Found, a: nat, i: nat, found: bool)
    requires Short(s) && i < |s| && HostReaches(s, u, Userinfo, a, i, found)
    ensures HostGoes(s, u, Userinfo, a, i, found)
  {
    if s[i] == '@' {
      UserinfoEnd(s, u, a, i, found);
    } else if IsUserinfoChar(s[i]) {
      UserinfoOn(s, u, a, i, found);
    }
  }

  lemma NameStep(s: string, u: Found, st: HostState, a: nat, i: nat, found: bool)
    requires Short(s) && i < |s| && HostReaches(s, u, st, a, i, found)
    requires st.HostStart? || st.InHost?
    ensures HostGoes(s, u, st, a, i, found)
  {
  }

  lemma LiteralStep(s: string, u: Found, st: HostState, a: nat, i: nat, found: bool)
    requires Short(s) && i < |s| && HostReaches(s, u, st, a, i, found)
    requires st.V6Start? || st.V6? || st.V6End?
    ensures HostGoes(s, u, st, a, i, found)
  {
  }

  lemma PortStep(s: string, u: Found, st: HostState, a: nat, i: nat, found: bool)
    requires Short(s) && i < |s| && HostReaches(s, u, st, a, i, found)
    requires st.PortStart? || st.Port?
    ensures HostGoes(s, u, st, a, i, found)
  {
  }

  lemma HostStep(s: string, u: Found, st: HostState, a: nat, i: nat, found: bool)
    requires Short(s) && i < |s| && HostReaches(s, u, st, a, i, found)
    ensures HostGoes(s, u, st, a, i, found)
  {
    if st.UserinfoStart? {
      UserinfoStartStep(s, u, a, i, found);
    } else if st.Userinfo? {
      UserinfoStep(s, u, a, i, found);
    } else if st.HostStart? || st.InHost? {
      NameStep(s, u, st, a, i, found);
    } else if st.PortStart? || st.Port? {
      PortStep(s, u, st, a, i, found);
    } else {
      LiteralStep(s, u, st, a, i, found);
    }
  }

  // ------------------------------------------------------------- the port

  /** `strtoul` on the bytes in memory from `at` on, which stops at the first
      that is no digit. */
  function Strtoul(v: nat, m: string, at: nat): (r: nat)
    ensures r >= v
    decreases |m| - at
  {
    if at < |m| && IsNum(m[at]) then
      GrowsBy(v, 10);
      Strtoul(v * 10 + NumValue(m[at]), m, at + 1)
    else v
  }

  lemma DigitIsHex(ch: char)
    requires IsNum(ch)
    ensures IsHex(ch) && HexDigit(ch) == NumValue(ch)
  {
  }

  /** `strtoul` reads a numeral, and goes on behind it. */
  lemma {:induction false} StrtoulReads(v: nat, m: string, i: nat, j: nat)
    requires All(m, i, j, IsNum)
    ensures (forall c <- m[i..j] :: IsHex(c)) && Strtoul(v, m, i) == Strtoul(Numeral(v, 10, m[i..j]), m, j)
    decreases j - i
  {
    forall c | c in m[i..j] ensures IsHex(c) {
      var k :| i <= k < j && m[k] == c;
      DigitIsHex(c);
    }
    if i < j {
      DigitIsHex(m[i]);
      assert m[i..j][1..] == m[i + 1..j] && m[i..j][0] == m[i];
      StrtoulReads(v * 10 + NumValue(m[i]), m, i + 1, j);
    }
  }

  /** The value read is that of the digits in the range if and only if no digit
      follows them, or nothing but zeros is read at all. */
  lemma PortExact(m: string, i: nat, j: nat)
    requires All(m, i, j, IsNum)
    ensures forall c <- m[i..j] :: IsHex(c)
    ensures var v := Numeral(0, 10, m[i..j]);
            Strtoul(0, m, i) == v <==> j == |m| || !IsNum(m[j]) || (v == 0 && Strtoul(0, m, j) == 0)
  {
    StrtoulReads(0, m, i, j);
    var v := Numeral(0, 10, m[i..j]);
    if v > 0 && j < |m| && IsNum(m[j]) {
      assert Strtoul(v, m, j) == Strtoul(v * 10 + NumValue(m[j]), m, j + 1) >= v * 10;
    }
  }

  /** Behind the end of a text, `strtoul` reads what follows it. */
  lemma {:induction false} StrtoulBehind(v: nat, s: string, behind: string, at: nat)
    requires at <= |behind|
    ensures Strtoul(v, s + behind, |s| + at) == Strtoul(v, behind, at)
    decreases |behind| - at
  {
    if at < |behind| && IsNum(behind[at]) {
      StrtoulBehind(v * 10 + NumValue(behind[at]), s, behind, at + 1);
    }
  }

  // ------------------------------------------------------------ the result

  /** There is an "@" in the authority. */
  predicate HasAt(s: string, u: Found) {
    u.host.on && u.host.End() <= |s| && '@' in s[u.host.off..u.host.End()]
  }

  /** What the first loop leaves: the fields, with the authority in one piece. */
  predicate Whole(s: string, u: Found) {
    (!u.host.on ==> u.host == NO_RANGE) &&
    !u.port.on && !u.userinfo.on &&
    (u.host.on || !u.schema.on ==> Laid(s, u)) &&
    (u.host.on ==> u.host.End() <= |s| && (u.host.End() < |s| ==> s[u.host.End()] in "/?"))
  }

  lemma WholeAtEnd(s: string, u: Found, st: State, connect: bool)
    requires Reaches(s, u, st, |s|, connect) && (!u.host.on ==> u.host == NO_RANGE)
    ensures Whole(s, u)
  {
  }

  lemma AtGrows(s: string, off: nat, i: nat)
    requires off <= i < |s|
    ensures '@' in s[off..i + 1] <==> '@' in s[off..i] || s[i] == '@'
  {
    assert s[off..i + 1] == s[off..i] + [s[i]];
  }

  /** Where the authority can be read from. */
  lemma ServerFrom(st: State, ch: char)
    requires ParseUrlChar(st, ch).ReqServer? || ParseUrlChar(st, ch).ReqServerWithAt?
    ensures st.ReqServer? || st.ReqServerWithAt? || st.ReqServerStart?
  {
  }

  /** Reading the authority, `HOST` ends at `i`. */
  lemma AtInServer(s: string, u: Found, st: State, t: State, i: nat)
    requires Short(s) && i < |s| && (t.ReqServer? || t.ReqServerWithAt?)
    requires if st.ReqServerStart? then !u.host.on else u.host.on && u.host.End() == i && (st.ReqServer? || st.ReqServerWithAt?)
    ensures var v := Placed(u, t, Same(st, t), i);
            v.host.on && v.host.End() == i + 1 &&
            if u.host.on then v.host.off == u.host.off <= i == u.host.End() else v.host.off == i
  {
  }

  lemma AtStep(s: string, u: Found, st: State, i: nat, connect: bool, found: bool)
    requires Short(s) && i < |s| && Reaches(s, u, st, i, connect) && found == HasAt(s, u)
    requires !ParseUrlChar(st, s[i]).Dead?
    ensures var t := ParseUrlChar(st, s[i]);
            HasAt(s, Placed(u, t, Same(st, t), i)) == (found || t.ReqServerWithAt?)
  {
    var t := ParseUrlChar(st, s[i]);
    if t.ReqServer? || t.ReqServerWithAt? {
      ServerFrom(st, s[i]);
      AtInServer(s, u, st, t, i);
      AtMoves(s, u, Placed(u, t, Same(st, t), i), i);
      ServerAt(st, s[i]);
    } else {
      ElseHost(u, t, Same(st, t), i);
    }
  }

  lemma AtMoves(s: string, u: Found, v: Found, i: nat)
    requires i < |s| && v.host.on && v.host.End() == i + 1
    requires if u.host.on then v.host.off == u.host.off <= i == u.host.End() else v.host.off == i
    ensures HasAt(s, v) <==> HasAt(s, u) || s[i] == '@'
  {
    AtGrows(s, v.host.off, i);
  }

  lemma ElseHost(u: Found, t: State, same: bool, i: nat)
    requires !t.ReqServer? && !t.ReqServerWithAt?
    ensures Placed(u, t, same, i).host == u.host
  {
  }

  lemma ServerAt(st: State, ch: char)
    ensures var t := ParseUrlChar(st, ch); (t.ReqServerWithAt? ==> ch == '@') && (t.ReqServer? ==> ch != '@')
  {
  }

  /** `old_uf`: the field written last. */
  predicate Latest(u: Found, st: State, last: Option<UrlField>) {
    (!u.host.on ==> u.host == NO_RANGE) &&
    (last.Some? ==> u.Of(last.value).on) && (Writes(st) ==> last == Some(FieldOf(st)))
  }

  /** Writing the field written last is going on with it: no field is ever
      taken up again behind a delimiter. */
  lemma SameIsLatest(s: string, u: Found, st: State, i: nat, connect: bool, last: Option<UrlField>)
    requires i < |s| && Reaches(s, u, st, i, connect) && Latest(u, st, last)
    ensures var t := ParseUrlChar(st, s[i]);
            !t.Dead? && Writes(t) ==> (last == Some(FieldOf(t)) <==> Same(st, t))
  {
  }

  /** What the loop remembers besides the fields. */
  predicate Remembers(s: string, u: Found, st: State, found: bool, last: Option<UrlField>) {
    found == HasAt(s, u) && Latest(u, st, last)
  }

  lemma RemembersStep(s: string, u: Found, st: State, i: nat, connect: bool, found: bool, last: Option<UrlField>)
    requires Short(s) && i < |s| && Reaches(s, u, st, i, connect) && Remembers(s, u, st, found, last)
    requires !ParseUrlChar(st, s[i]).Dead?
    ensures var t := ParseUrlChar(st, s[i]);
            (Writes(t) ==> (last == Some(FieldOf(t)) <==> Same(st, t))) &&
            Remembers(s, Placed(u, t, Same(st, t), i), t, found || t.ReqServerWithAt?, if Writes(t) then Some(FieldOf(t)) else last)
  {
    AtStep(s, u, st, i, connect, found);
    SameIsLatest(s, u, st, i, connect, last);
    var t := ParseUrlChar(st, s[i]);
    LatestStep(u, st, t, Same(st, t), i, last);
  }

  lemma LatestStep(u: Found, st: State, t: State, same: bool, i: nat, last: Option<UrlField>)
    requires Latest(u, st, last) && same == Same(st, t)
    ensures Latest(Placed(u, t, same, i), t, if Writes(t) then Some(FieldOf(t)) else last)
  {
  }

  function PlacedLast(u: Found, t: State, last: Option<UrlField>, i: nat): Found {
    if !Writes(t) then u
    else if last == Some(FieldOf(t)) then u.Longer(FieldOf(t))
    else u.Put(FieldOf(t), NewRange(i))
  }

  /** What the loop of `http_parser_parse_url` knows between two bytes. */
  datatype Scan = Scan(u: Found, st: State, at: bool, last: Option<UrlField>)

  function Next(c: Scan, ch: char, i: nat): Scan {
    var t := ParseUrlChar(c.st, ch);
    Scan(PlacedLast(c.u, t, c.last, i), t, c.at || t.ReqServerWithAt?, if Writes(t) then Some(FieldOf(t)) else c.last)
  }

  function Scanned(s: string, connect: bool): Scan
    decreases |s|
  {
    if s == "" then Scan(NOTHING, StartOf(connect), false, None)
    else Next(Scanned(s[..|s| - 1], connect), s[|s| - 1], |s| - 1)
  }

  /** The fields of a URL before its authority is taken apart. */
  function Cut(s: string, connect: bool): Found { Scanned(s, connect).u }

  lemma ScannedSnoc(s: string, connect: bool, i: nat)
    requires i < |s|
    ensures Scanned(s[..i + 1], connect) == Next(Scanned(s[..i], connect), s[i], i)
  {
    assert s[..i + 1][..i] == s[..i];
  }

  type UrlInvariant = (Scan, nat) -> bool

  /** What the loop keeps. */
  predicate InUrlLoop(s: string, connect: bool, c: Scan, i: nat) {
    i <= |s| && c == Scanned(s[..i], connect) && Reaches(s, c.u, c.st, i, connect) && Remembers(s, c.u, c.st, c.at, c.last)
  }

  function UrlKept(s: string, connect: bool): UrlInvariant { (c: Scan, i: nat) => InUrlLoop(s, connect, c, i) }

  lemma UrlKeptStep(s: string, connect: bool, c: Scan, i: nat)
    requires Short(s) && i < |s| && InUrlLoop(s, connect, c, i) && !ParseUrlChar(c.st, s[i]).Dead?
    ensures InUrlLoop(s, connect, Next(c, s[i], i), i + 1)
  {
    UrlStep(s, c.u, c.st, i, connect);
    RemembersStep(s, c.u, c.st, i, connect, c.at, c.last);
    ScannedSnoc(s, connect, i);
    var t := ParseUrlChar(c.st, s[i]);
    assert PlacedLast(c.u, t, c.last, i) == Placed(c.u, t, Same(c.st, t), i);
  }

  /** Every byte that is not refused keeps it. */
  ghost predicate UrlKeeps(s: string, inv: UrlInvariant) {
    forall c: Scan, i: nat {:trigger inv(c, i)} | i < |s| && inv(c, i) ::
      var d := Next(c, s[i], i); d.st.Dead? || inv(d, i + 1)
  }

  lemma UrlKeptKeeps(s: string, connect: bool)
    requires Short(s)
    ensures UrlKeeps(s, UrlKept(s, connect))
  {
    var inv := UrlKept(s, connect);
    forall c: Scan, i: nat {:trigger inv(c, i)} | i < |s| && inv(c, i)
      ensures var d := Next(c, s[i], i); d.st.Dead? || inv(d, i + 1)
    {
      UrlKeptOne(s, connect, inv, c, i);
    }
  }

  lemma UrlKeptOne(s: string, connect: bool, inv: UrlInvariant, c: Scan, i: nat)
    requires Short(s) && inv == UrlKept(s, connect) && i < |s| && inv(c, i)
    ensures var d := Next(c, s[i], i); d.st.Dead? || inv(d, i + 1)
  {
    if !Next(c, s[i], i).st.Dead? { UrlKeptStep(s, connect, c, i); }
  }

  lemma UrlStarts(s: string, connect: bool)
    ensures UrlKept(s, connect)(Scan(NOTHING, StartOf(connect), false, None), 0)
  {
    assert s[..0] == "";
    assert Reaches(s, NOTHING, StartOf(connect), 0, connect);
    assert Remembers(s, NOTHING, StartOf(connect), false, None);
  }

  lemma UrlEnds(s: string, connect: bool, c: Scan)
    requires UrlKept(s, connect)(c, |s|)
    ensures c.u == Cut(s, connect) && Whole(s, c.u) && c.at == HasAt(s, c.u)
  {
    assert s[..|s|] == s;
    WholeAtEnd(s, c.u, c.st, connect);
  }

  /** The authority taken apart, and nothing else changed. */
  predicate Apart(cut: Found, u: Found) {
    u == cut.(userinfo := u.userinfo, host := u.host, port := u.port) && u.host.on == cut.host.on
  }

  lemma HostPlacedApart(cut: Found, u: Found, from: HostState, to: HostState, i: nat)
    requires Apart(cut, u)
    ensures Apart(cut, HostPlaced(u, from, to, i))
  {
  }

  /** The fields of a URL that is accepted. */
  predicate Parsed(s: string, cut: Found, u: Found) {
    Whole(s, cut) && Apart(cut, u) &&
    if u.host.on then AuthorityLaid(s, u, cut.host.off, cut.host.End(), HasAt(s, cut))
    else u == cut && !u.schema.on
  }

  function HostFrom(found: bool): HostState { if found then UserinfoStart else HostStart }

  /** The host's length cleared, before it is counted again. */
  function Emptied(u: Found): Found { u.(host := u.host.(len := 0)) }

  type HostInvariant = (Found, HostState, nat) -> bool

  /** What the loop of `http_parse_host` keeps. */
  function HostKept(s: string, cut: Found, found: bool): HostInvariant {
    (u: Found, st: HostState, i: nat) => HostReaches(s, u, st, cut.host.off, i, found) && Apart(cut, u)
  }

  /** Every character that is not refused keeps it. */
  ghost predicate HostKeeps(s: string, end: nat, inv: HostInvariant) {
    forall u: Found, st: HostState, i: nat {:trigger inv(u, st, i)} | i < end <= |s| && inv(u, st, i) ::
      var t := ParseHostChar(st, s[i]); t.HostDead? || inv(HostPlaced(u, st, t, i), t, i + 1)
  }

  lemma HostKeptKeeps(s: string, cut: Found, found: bool, end: nat)
    requires Short(s)
    ensures HostKeeps(s, end, HostKept(s, cut, found))
  {
    var inv := HostKept(s, cut, found);
    forall u: Found, st: HostState, i: nat {:trigger inv(u, st, i)} | i < end <= |s| && inv(u, st, i)
      ensures var t := ParseHostChar(st, s[i]); t.HostDead? || inv(HostPlaced(u, st, t, i), t, i + 1)
    {
      HostStep(s, u, st, cut.host.off, i, found);
      HostPlacedApart(cut, u, st, ParseHostChar(st, s[i]), i);
    }
  }

  lemma HostStarts(s: string, cut: Found, found: bool)
    requires cut.host.End() <= |s| && !cut.port.on && !cut.userinfo.on
    ensures HostKept(s, cut, found)(Emptied(cut), HostFrom(found), cut.host.off)
  {
    var u, a := Emptied(cut), cut.host.off;
    assert HostReaches(s, u, HostFrom(found), a, a, found);
    assert Apart(cut, u);
  }

  lemma HostDone(s: string, cut: Found, u: Found, st: HostState, found: bool)
    requires HostKept(s, cut, found)(u, st, cut.host.End()) && HostEnds(st)
    ensures Apart(cut, u) && AuthorityLaid(s, u, cut.host.off, cut.host.End(), found)
  {
  }

  /** The text of the authority. */
  function Region(s: string, u: Found): string
    requires u.host.End() <= |s|
  {
    s[u.host.off..u.host.End()]
  }

  /** A URL with a schema and no authority does not pass. */
  lemma NeedsHost(s: string, cut: Found, found: bool, region: string)
    requires cut.host == NO_RANGE && region == Region(s, cut)
    ensures !HostEnds(HostWalk(HostFrom(found), region))
  {
    Unended(found, region);
  }

  lemma Unended(found: bool, text: string)
    requires |text| == 0
    ensures !HostEnds(HostWalk(HostFrom(found), text))
  {
    EmptyWalk(HostFrom(found), text);
  }

  lemma EmptyWalk(from: HostState, text: string)
    requires |text| == 0
    ensures HostWalk(from, text) == from
  {
  }

  predicate HostAndPort(u: Found) { u.host.on && u.port.on && !u.schema.on && u.NoTail() && !u.userinfo.on }

  /** A schema needs an authority, and an authority that can be taken apart. */
  predicate AuthorityAccepted(s: string, cut: Found) {
    (!cut.schema.on && !cut.host.on) ||
    (cut.host.on && cut.host.End() <= |s| &&
     HostEnds(HostWalk(HostFrom(HasAt(s, cut)), Region(s, cut))))
  }

  /** The URL is well formed, and so is its authority. */
  predicate Divides(s: string, connect: bool) {
    !Walk(StartOf(connect), s).Dead? && AuthorityAccepted(s, Cut(s, connect))
  }

  // ------------------------------------------------- what a result means

  /** The place of a field in a URL. */
  function Rank(f: UrlField): nat {
    match f
    case SCHEMA => 0 case USERINFO => 1 case HOST => 2 case PORT => 3 case PATH => 4 case QUERY => 5 case FRAGMENT => 6
  }

  /** The characters of a field are of its class. */
  predicate FieldText(s: string, f: UrlField, r: Range) {
    match f
    case SCHEMA => All(s, r.off, r.End(), IsAlpha)
    case USERINFO => All(s, r.off, r.End(), IsUserinfoChar)
    case HOST => All(s, r.off, r.End(), IsHostChar) || All(s, r.off, r.End(), V6Text)
    case PORT => All(s, r.off, r.End(), IsNum)
    case PATH => All(s, r.off, r.End(), IsUrlChar)
    case QUERY => All(s, r.off, r.End(), QueryText)
    case FRAGMENT => All(s, r.off, r.End(), FragmentText)
  }

  predicate FieldGood(s: string, u: Found, f: UrlField) {
    u.Of(f).on ==> u.Of(f).len > 0 && u.Of(f).End() <= |s| && FieldText(s, f, u.Of(f))
  }

  lemma ServerFields(s: string, cut: Found, u: Found)
    requires Parsed(s, cut, u)
    ensures FieldGood(s, u, USERINFO) && FieldGood(s, u, HOST) && FieldGood(s, u, PORT)
  {
  }

  lemma OtherFields(s: string, cut: Found, u: Found)
    requires Parsed(s, cut, u)
    ensures FieldGood(s, u, SCHEMA) && FieldGood(s, u, PATH) && FieldGood(s, u, QUERY) && FieldGood(s, u, FRAGMENT)
  {
  }

  lemma ServerOrder(s: string, cut: Found, u: Found)
    requires Parsed(s, cut, u)
    ensures u.userinfo.on ==> u.host.on && cut.host.off == u.userinfo.off && u.userinfo.End() <= u.host.off
    ensures u.host.on ==> cut.host.off <= u.host.off && u.host.End() <= cut.host.End()
    ensures u.port.on ==> u.host.on && u.host.End() <= u.port.off && u.port.End() == cut.host.End()
  {
  }

  lemma OuterOrder(s: string, cut: Found, u: Found)
    requires Parsed(s, cut, u)
    ensures u.schema.on ==> u.host.on && u.schema.End() <= cut.host.off
    ensures u.host.on ==> (u.path.on ==> cut.host.End() <= u.path.off) && (u.query.on ==> cut.host.End() <= u.query.off)
    ensures u.host.on && u.fragment.on ==> cut.host.End() <= u.fragment.off
  {
  }

  lemma LateOrder(s: string, cut: Found, u: Found)
    requires Parsed(s, cut, u)
    ensures u.query.on && u.path.on ==> u.path.End() <= u.query.off
    ensures u.fragment.on && u.path.on ==> u.path.End() <= u.fragment.off
    ensures u.fragment.on && u.query.on ==> u.query.End() <= u.fragment.off
  {
  }

  /** The fields of an accepted URL do not overlap and come in the order of a URL. */
  lemma FieldsInOrder(s: string, cut: Found, u: Found, f: UrlField, g: UrlField)
    requires Parsed(s, cut, u) && u.Of(f).on && u.Of(g).on && Rank(f) < Rank(g)
    ensures u.Of(f).End() <= u.Of(g).off
  {
    ServerOrder(s, cut, u);
    OuterOrder(s, cut, u);
    LateOrder(s, cut, u);
  }

  /** They lie within the URL, and hold only characters of their class. */
  lemma FieldsGood(s: string, cut: Found, u: Found, f: UrlField)
    requires Parsed(s, cut, u) && u.Of(f).on
    ensures FieldGood(s, u, f)
  {
    ServerFields(s, cut, u);
    OtherFields(s, cut, u);
  }

  /** The port is the decimal value of its range if and only if the URL does
      not end in it, or no digit is behind the URL in memory, or both the port
      and the digits behind it are zeros. */
  lemma PortValue(s: string, behind: string, cut: Found, u: Found)
    requires Parsed(s, cut, u) && u.port.on
    ensures var r := u.port; r.End() <= |s| && forall c <- s[r.off..r.End()] :: IsHex(c)
    ensures var r := u.port; var v := Numeral(0, 10, s[r.off..r.End()]);
            Strtoul(0, s + behind, r.off) == v <==>
              r.End() < |s| || behind == "" || !IsNum(behind[0]) || (v == 0 && Strtoul(0, behind, 0) == 0)
  {
    var r := u.port;
    PortText(s, behind, cut, u);
    PortExact(s + behind, r.off, r.End());
    if r.End() == |s| {
      StrtoulBehind(0, s, behind, 0);
    }
  }

  /** A port is digits, and ends with the URL or before a "/" or a "?". */
  lemma PortText(s: string, behind: string, cut: Found, u: Found)
    requires Parsed(s, cut, u) && u.port.on
    ensures var r, m := u.port, s + behind;
            r.End() <= |s| && All(m, r.off, r.End(), IsNum) && m[r.off..r.End()] == s[r.off..r.End()] &&
            (r.End() < |s| ==> m[r.End()] == s[r.End()] && !IsNum(s[r.End()]))
  {
    ServerFields(s, cut, u);
    assert u.port.End() < |s| ==> s[u.port.End()] in "/?";
  }

  class Url {
    var port: nat
    var found: Found

    /** A zero-initialised result. */
    constructor ()
      ensures port == 0 && found == NOTHING
    {
      port, found := 0, NOTHING;
    }

    /** Byte `i` belongs to `field`: the field goes on, or it begins. */
    method Place(field: UrlField, i: nat, last: Option<UrlField>)
      modifies this`found
      ensures found == if last == Some(field) then old(found).Longer(field) else old(found).Put(field, NewRange(i))
    {
      if last == Some(field) {
        found := found.Longer(field);
      } else {
        found := found.Put(field, NewRange(i));
      }
    }

    /** A byte that goes on to state `st`: its field grows or begins. */
    method Take(st: State, i: nat, last: Option<UrlField>) returns (field: Option<UrlField>)
      modifies this`found
      ensures found == PlacedLast(old(found), st, last, i) && field == if Writes(st) then Some(FieldOf(st)) else last
    {
      field := last;
      if Writes(st) {
        Place(FieldOf(st), i, last);
        field := Some(FieldOf(st));
      }
    }

    /** The loop of `http_parser_parse_url`, which keeps whatever every byte keeps. */
    method WalkUrl(s: string, connect: bool, ghost inv: UrlInvariant) returns (st: State, foundAt: bool)
      requires UrlKeeps(s, inv) && inv(Scan(found, StartOf(connect), false, None), 0)
      modifies this`found
      ensures st == Walk(StartOf(connect), s)
      ensures !st.Dead? ==> exists last :: inv(Scan(found, st, foundAt, last), |s|)
    {
      st, foundAt := StartOf(connect), false;
      var oldField: Option<UrlField> := None;
      var i := 0;
      assert s[..0] == "";
      while i < |s|
        invariant i <= |s| && st == Walk(StartOf(connect), s[..i]) && inv(Scan(found, st, foundAt, oldField), i)
      {
        var next := ParseUrlChar(st, s[i]);
        WalkSnoc(StartOf(connect), s, i);
        if next.Dead? {
          DeadStays(StartOf(connect), s, i + 1);
          return next, foundAt;
        }
        oldField := Take(next, i, oldField);
        foundAt := foundAt || next.ReqServerWithAt?;
        st, i := next, i + 1;
      }
      assert s[..i] == s;
    }

    method Locate(s: string, connect: bool) returns (dead: bool, foundAt: bool)
      requires found == NOTHING && Short(s)
      modifies this`found
      ensures dead <==> Walk(StartOf(connect), s).Dead?
      ensures !dead ==> found == Cut(s, connect) && Whole(s, found) && foundAt == HasAt(s, found)
    {
      UrlKeptKeeps(s, connect);
      UrlStarts(s, connect);
      var st;
      st, foundAt := WalkUrl(s, connect, UrlKept(s, connect));
      dead := st.Dead?;
      if !dead {
        ghost var last :| UrlKept(s, connect)(Scan(found, st, foundAt, last), |s|);
        UrlEnds(s, connect, Scan(found, st, foundAt, last));
      }
    }

    /** `http_parse_host`: takes the range of the host apart, unless it is refused. */
    method ParseHost(s: string, foundAt: bool) returns (bad: bool)
      requires Short(s) && found.host.End() <= |s| && !found.port.on && !found.userinfo.on
      modifies this`found
      ensures bad <==> !HostEnds(HostWalk(HostFrom(foundAt), Region(s, old(found))))
      ensures !bad ==> Apart(old(found), found) && AuthorityLaid(s, found, old(found).host.off, old(found).host.End(), foundAt)
    {
      var a, end := found.host.off, found.host.End();
      ghost var cut := found;
      HostStarts(s, cut, foundAt);
      HostKeptKeeps(s, cut, foundAt, end);
      found := Emptied(found);
      var st := WalkHost(s, a, end, foundAt, HostKept(s, cut, foundAt));
      // a URL may not break off here
      bad := !HostEnds(st);
      if !bad { HostDone(s, cut, found, st, foundAt); }
    }

    /** The loop of `http_parse_host`, which keeps whatever every character keeps. */
    method WalkHost(s: string, a: nat, end: nat, foundAt: bool, ghost inv: HostInvariant) returns (st: HostState)
      requires a <= end <= |s| && HostKeeps(s, end, inv) && inv(found, HostFrom(foundAt), a)
      modifies this`found
      ensures st == HostWalk(HostFrom(foundAt), s[a..end])
      ensures !st.HostDead? ==> inv(found, st, end)
    {
      st := HostFrom(foundAt);
      var i := a;
      EmptyWalk(st, s[a..a]);
      while i < end
        invariant a <= i <= end && st == HostWalk(HostFrom(foundAt), s[a..i]) && inv(found, st, i)
      {
        var next := ParseHostChar(st, s[i]);
        HostWalkSnoc(HostFrom(foundAt), s, a, i);
        if next.HostDead? {
          HostDeadStays(HostFrom(foundAt), s, a, i + 1, end);
          return next;
        }
        found := HostPlaced(found, st, next, i);
        st, i := next, i + 1;
      }
    }

    /** The fields of the URL, without the port's value. */
    method Divide(s: string, connect: bool) returns (bad: bool)
      requires found == NOTHING && Short(s)
      modifies this`found
      ensures bad <==> !Divides(s, connect)
      ensures !bad ==> Parsed(s, Cut(s, connect), found)
    {
      var dead, foundAt := Locate(s, connect);
      if dead {
        return true;
      }
      if found.schema.on || found.host.on {
        ghost var cut := found;
        bad := ParseHost(s, foundAt);
        if !cut.host.on { NeedsHost(s, cut, foundAt, Region(s, cut)); }
      } else {
        bad := false;
      }
    }

    /** `http_parser_parse_url`; `behind` is what follows the URL in memory. */
    method Parse(s: string, behind: string, connect: bool) returns (bad: bool)
      requires port == 0 && found == NOTHING && Short(s)
      modifies this
      ensures Divides(s, connect) ==> Parsed(s, Cut(s, connect), found)
      ensures bad <==> !Divides(s, connect) || (connect && !HostAndPort(found)) ||
                       (found.port.on && Strtoul(0, s + behind, found.port.off) > 0xffff)
      ensures !bad ==> port == if found.port.on then Strtoul(0, s + behind, found.port.off) else 0
    {
      bad := Divide(s, connect);
      // for CONNECT a host and a port, and nothing else
      if bad || (connect && !HostAndPort(found)) {
        return true;
      }
      if found.port.on {
        var v := Strtoul(0, s + behind, found.port.off);
        if v > 0xffff {
          return true;
        }
        port := v;
      }
    }
  }

  // ------------------------------------------ a port read past the URL's end

  lemma ScannedExample()
    ensures var s := "h:80"; Walk(ReqServerStart, s).ReqServer? && Cut(s, true) == NOTHING.(host := Range(true, 0, 4))
  {
    assert "h:80"[..3] == "h:8" && "h:8"[..2] == "h:" && "h:"[..1] == "h" && "h"[..0] == "";
    var h := Range(true, 0, 1);
    assert Walk(ReqServerStart, "h") == ReqServer;
    assert Walk(ReqServerStart, "h:") == ReqServer;
    assert Walk(ReqServerStart, "h:8") == ReqServer;
    assert Scanned("", true) == Scan(NOTHING, ReqServerStart, false, None);
    assert Scanned("h", true) == Scan(NOTHING.(host := h), ReqServer, false, Some(HOST));
    assert Scanned("h:", true) == Scan(NOTHING.(host := h.(len := 2)), ReqServer, false, Some(HOST));
    assert Scanned("h:8", true) == Scan(NOTHING.(host := h.(len := 3)), ReqServer, false, Some(HOST));
  }

  lemma HostWalkExample()
    ensures HostWalk(HostStart, "h:80") == Port
  {
    assert "h:80"[..3] == "h:8" && "h:8"[..2] == "h:" && "h:"[..1] == "h" && "h"[..0] == "";
    assert HostWalk(HostStart, "h") == InHost;
    assert HostWalk(HostStart, "h:") == PortStart;
    assert HostWalk(HostStart, "h:8") == Port;
  }

  lemma DividesExample()
    ensures Divides("h:80", true) && Cut("h:80", true) == NOTHING.(host := Range(true, 0, 4))
  {
    ScannedExample();
    HostWalkExample();
    assert "h:80"[0..4] == "h:80";
  }

  lemma FieldsOfExample(u: Found)
    requires Parsed("h:80", NOTHING.(host := Range(true, 0, 4)), u)
    ensures HostAndPort(u) && u.port == Range(true, 2, 2)
  {
    var s, r := "h:80", u.host;
    assert s[0] == 'h' && s[1] == ':' && s[2] == '8' && s[3] == '0';
    assert !HasAt(s, NOTHING.(host := Range(true, 0, 4)));
    assert HostLaid(s, u, 0, HostEnd(u, 0)) && PortLaid(s, u, HostEnd(u, 0), 4);
    assert r.off == 0 && r.len > 0;
    assert !IsHostChar(s[1]);
  }

  lemma PortExample()
    ensures Strtoul(0, "h:80" + "80", 2) == 8080
  {
    var m := "h:80" + "80";
    assert Strtoul(8080, m, 6) == 8080;
    assert Strtoul(808, m, 5) == 8080;
    assert Strtoul(80, m, 4) == 8080;
    assert Strtoul(8, m, 3) == 8080;
  }

  /** "h:80" is accepted with the port's field on its "80"; with "80" behind it
      in memory the port comes out as 8080. */
  method PortPastTheEnd() returns (bad: bool, port: nat, digits: string)
    ensures !bad && digits == "80" && port == 8080
  {
    var s := "h:80";
    var u: Url := new Url();
    bad := u.Parse(s, "80", true);
    DividesExample();
    FieldsOfExample(u.found);
    PortExample();
    port, digits := u.port, s[u.found.port.off..u.found.port.End()];
  }
}
