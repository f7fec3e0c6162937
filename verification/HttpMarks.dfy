/** Which data a byte belongs to: the marks a step sets and clears agree with
  the states it leaves and enters. */
module HttpMarks {
  import opened Common
  import opened HttpTypes
  import opened HttpStep

  /** The mark `http_parser_execute` starts a call with. */
  function Live(s: State): Option<Data> {
    if s.HeaderField? then Some(Field)
    else if s.HeaderValue? then Some(Value)
    else if InUrl(s) then Some(Url)
    else None
  }

  /** The states in which body bytes may be marked. */
  predicate InBody(s: State) {
    s.BodyIdentity? || s.BodyIdentityEof? || s.ChunkData? || s.ChunkDataAlmostDone?
  }

  /** The mark of a byte once the step has had its chance to set it. */
  function Marked(from: State, s: Step): Option<Data> {
    if Live(from).Some? then Live(from) else s.mark
  }

  /** How a step that goes on treats the marks. */
  predicate Disciplined(from: State, s: Step) {
    (s.mark.Some? ==> Live(from).None? && (InBody(from) <==> s.mark.value.Body?)) &&
    (s.mark == Some(Body) <==> from.BodyIdentity? || from.BodyIdentityEof? || from.ChunkData?) &&
    (s.flush.None? && Marked(from, s).Some? ==> s.tells == []) &&
    match s.flush
    case None =>
      if from.ChunkDataAlmostDone? then false
      else if Marked(from, s) == Some(Body) then InBody(s.p.state) && Live(s.p.state).None?
      else Live(s.p.state) == Marked(from, s) && (!InBody(s.p.state) || FreshBody(from, s))
    case Some(f) =>
      Live(s.p.state).None? && !InBody(s.p.state) &&
      if f.through then f.what == Body && from.BodyIdentity?
      else if f.what == Body then from.ChunkDataAlmostDone?
      else Marked(from, s) == Some(f.what)
  }

  /** The body begins with the next byte. */
  predicate FreshBody(from: State, s: Step) {
    Marked(from, s).None? && Live(s.p.state).None? && InBody(s.p.state) && !InBody(from) && s.mark.None?
  }

  /** A step that stops the parser without an error leaves nothing marked. */
  predicate Clean(from: State, s: Step) {
    (Marked(from, s).None? && s.flush.None? && !InBody(from)) ||
    (s.flush.Some? && s.flush.value == Flush(Body, true) && from.BodyIdentity? && s.mark == Some(Body))
  }

  predicate Tidy(from: State, s: Step) {
    (s.exit.Next? ==> Disciplined(from, s)) && (s.exit.Halt? || s.exit.Leave? ==> Clean(from, s)) &&
    (s.exit.Error? ==> s.tells == [] && s.flush.None?)
  }

  /** Neither marks nor body bytes are involved. */
  predicate Quiet(s: Step) {
    s.mark.None? && s.flush.None? && (s.exit.Error? ==> s.tells == []) &&
    (s.exit.Next? ==> Live(s.p.state).None? && (InBody(s.p.state) ==> s.p.state.BodyIdentity? || s.p.state.BodyIdentityEof? || s.p.state.ChunkData?))
  }

  lemma QuietIsTidy(from: State, s: Step)
    requires Quiet(s) && Live(from).None? && !InBody(from)
    ensures Tidy(from, s)
  {
  }

  lemma StartQuiet(p: Parser, ch: char, hooks: Hooks)
    requires p.state.StartReqOrRes? || p.state.ResOrRespH? || p.state.StartRes? || p.state.StartReq?
    ensures p.state.StartReqOrRes? ==> Quiet(StepStartReqOrRes(p, ch, hooks))
    ensures p.state.ResOrRespH? ==> Quiet(StepResOrRespH(p, ch))
    ensures p.state.StartRes? ==> Quiet(StepStartRes(p, ch, hooks))
    ensures p.state.StartReq? ==> Quiet(StepStartReq(p, ch, hooks))
  {
  }

  lemma WordQuiet(p: Parser, ch: char)
    requires Live(p.state).None? && !InBody(p.state)
    ensures Quiet(StepResponseWord(p, ch)) && Quiet(StepRequestWord(p, ch))
  {
  }

  lemma VersionQuiet(p: Parser, ch: char)
    requires Live(p.state).None? && !InBody(p.state)
    ensures Quiet(StepResponseVersion(p, ch)) && Quiet(StepRequestVersion(p, ch))
  {
  }

  lemma StatusQuiet(p: Parser, ch: char, hooks: Hooks)
    requires Live(p.state).None? && !InBody(p.state)
    ensures Quiet(StepResponseStatus(p, ch, hooks))
  {
  }

  lemma UrlStatesClosed(s: State, ch: char)
    ensures var t := ParseUrlChar(s, ch); t.Dead? || InUrl(t)
  {
  }

  lemma UrlTidy(p: Parser, ch: char)
    requires p.state.ReqSpacesBeforeUrl? || InUrl(p.state)
    ensures Tidy(p.state, StepUrl(p, ch))
  {
    var from := if p.state.ReqSpacesBeforeUrl? && p.verb == CONNECT then ReqServerStart else p.state;
    UrlCharGoes(p, from, ch);
  }

  /** In a URL, a byte that belongs to it leaves the parser in it. */
  lemma UrlCharGoes(p: Parser, from: State, ch: char)
    ensures var t := UrlChar(p, from, ch);
            t.mark.None? && t.flush.None? && t.tells == [] &&
            (t.exit.Error? || (t.exit.Next? && Live(t.p.state) == Some(Url) && !InBody(t.p.state)))
  {
    UrlStatesClosed(from, ch);
  }

  lemma SwitchLineTidy(p: Parser, ch: char, hooks: Hooks)
    requires (Live(p.state).None? && !InBody(p.state)) || InUrl(p.state)
    ensures Tidy(p.state, SwitchLine(p, ch, hooks))
  {
    if p.state.ReqSpacesBeforeUrl? || InUrl(p.state) {
      UrlTidy(p, ch);
    } else {
      WordQuiet(p, ch);
      VersionQuiet(p, ch);
      StatusQuiet(p, ch, hooks);
      QuietIsTidy(p.state, SwitchLine(p, ch, hooks));
    }
  }

  lemma CompleteQuiet(p: Parser, hooks: Hooks)
    ensures Quiet(Complete(p, hooks)) && !InBody(NewMessage(p)) && !Complete(p, hooks).exit.Leave?
  {
  }

  lemma HeadersDoneQuiet(p: Parser, ch: char, hooks: Hooks)
    requires p.state.HeadersDone?
    ensures Quiet(StepHeadersDone(p, ch, hooks))
  {
    CompleteQuiet(p.(nread := 0), hooks);
  }

  lemma HeadersAlmostDoneQuiet(p: Parser, ch: char, hooks: Hooks)
    requires p.state.HeadersAlmostDone?
    ensures Quiet(StepHeadersAlmostDone(p, ch, hooks))
  {
    CompleteQuiet(p, hooks);
    var q := p.(state := HeadersDone, upgrade := p.flags.upgrade || p.verb == CONNECT);
    HeadersDoneQuiet(q, ch, hooks);
    HeadersDoneQuiet(q.(flags := q.flags.(skipBody := true)), ch, hooks);
  }

  lemma HeaderFieldStartTidy(p: Parser, from: State, ch: char, hooks: Hooks)
    requires p.state.HeaderFieldStart? && Live(from).None? && !InBody(from)
    ensures Tidy(from, StepHeaderFieldStart(p, ch, hooks))
  {
    if ch == '\n' {
      HeadersAlmostDoneQuiet(To(p, HeadersAlmostDone), ch, hooks);
      QuietIsTidy(from, StepHeaderFieldStart(p, ch, hooks));
    }
  }

  lemma HeaderAlmostDoneTidy(p: Parser, ch: char)
    requires p.state.HeaderAlmostDone?
    ensures Tidy(p.state, StepHeaderAlmostDone(p, ch))
  {
  }

  lemma HeaderValueStartTidy(p: Parser, ch: char)
    requires p.state.HeaderValueStart?
    ensures Tidy(p.state, StepHeaderValueStart(p, ch))
  {
  }

  lemma HeaderFieldTidy(p: Parser, ch: char)
    requires p.state.HeaderField?
    ensures Tidy(p.state, StepHeaderField(p, ch))
  {
  }

  lemma HeaderValueTidy(p: Parser, ch: char)
    requires p.state.HeaderValue?
    ensures Tidy(p.state, StepHeaderValue(p, ch))
  {
  }

  lemma HeaderValueLwsTidy(p: Parser, ch: char, hooks: Hooks)
    requires p.state.HeaderValueLws?
    ensures Tidy(p.state, StepHeaderValueLws(p, ch, hooks))
  {
    HeaderFieldStartTidy(To(p, HeaderFieldStart), p.state, ch, hooks);
  }

  lemma SwitchFreeTidy(p: Parser, ch: char, hooks: Hooks)
    requires Free(p.state)
    ensures Tidy(p.state, SwitchFree(p, ch, hooks))
  {
    if p.state.HeaderFieldStart? { HeaderFieldStartTidy(p, p.state, ch, hooks); }
    else if p.state.HeaderValueStart? { HeaderValueStartTidy(p, ch); }
    else if p.state.HeaderAlmostDone? { HeaderAlmostDoneTidy(p, ch); }
    else if p.state.HeaderValueLws? { HeaderValueLwsTidy(p, ch, hooks); }
    else if !p.state.BodyIdentityEof? { SwitchQuietTidy(p, ch, hooks); }
  }

  lemma SwitchQuietTidy(p: Parser, ch: char, hooks: Hooks)
    requires Free(p.state) && !p.state.HeaderFieldStart? && !p.state.HeaderValueStart? && !p.state.HeaderAlmostDone?
    requires !p.state.HeaderValueLws? && !p.state.BodyIdentityEof?
    ensures Tidy(p.state, SwitchFree(p, ch, hooks))
  {
    if p.state.HeadersAlmostDone? {
      HeadersAlmostDoneQuiet(p, ch, hooks);
      QuietIsTidy(p.state, SwitchFree(p, ch, hooks));
    } else if p.state.HeadersDone? {
      HeadersDoneQuiet(p, ch, hooks);
      QuietIsTidy(p.state, SwitchFree(p, ch, hooks));
    } else if p.state.Dead? {
      QuietIsTidy(p.state, SwitchFree(p, ch, hooks));
    } else if p.state.StartReqOrRes? || p.state.ResOrRespH? || p.state.StartRes? || p.state.StartReq? {
      StartQuiet(p, ch, hooks);
      QuietIsTidy(p.state, SwitchFree(p, ch, hooks));
    } else {
      SwitchLineTidy(p, ch, hooks);
    }
  }

  lemma MethodQuiet(p: Parser, ch: char)
    requires p.state.ReqMethod?
    ensures Quiet(StepMethod(p, ch))
  {
  }

  lemma BodyTidy(p: Parser, hooks: Hooks)
    requires p.state.BodyIdentity? && p.length > 0
    ensures Tidy(p.state, StepBodyIdentity(p, hooks))
  {
    CompleteQuiet(To(p.(length := p.length - 1), MessageDone), hooks);
  }

  lemma ChunkHeaderQuiet(p: Parser, ch: char)
    requires p.state.ChunkSizeStart? || p.state.ChunkSize? || p.state.ChunkParameters? || p.state.ChunkSizeAlmostDone?
    ensures Quiet(StepChunkHeader(p, ch))
  {
  }

  lemma ChunkDataTidy(p: Parser)
    requires p.state.ChunkData? && p.length > 0
    ensures Tidy(p.state, StepChunkData(p))
  {
  }

  lemma ChunkedTidy(p: Parser, ch: char)
    requires InChunks(p.state)
    requires p.state.ChunkSizeStart? ==> p.nread == 1
    requires p.state.ChunkData? ==> p.length != 0 && p.length != ULLONG_MAX
    requires p.state.ChunkDataAlmostDone? ==> p.length == 0
    ensures Tidy(p.state, SwitchChunked(p, ch))
  {
    if p.state.ChunkData? {
      ChunkDataTidy(p);
    } else if !p.state.ChunkDataAlmostDone? && !p.state.ChunkDataDone? {
      ChunkHeaderQuiet(p, ch);
      QuietIsTidy(p.state, StepChunkHeader(p, ch));
    }
  }

  lemma SwitchBusyTidy(p: Parser, ch: char, hooks: Hooks)
    requires Good(p) && !Free(p.state)
    ensures Tidy(p.state, SwitchBusy(p, ch, hooks))
  {
    var q := Counted(p);
    if p.state.ReqMethod? {
      MethodQuiet(q, ch);
      QuietIsTidy(p.state, StepMethod(q, ch));
    }
    else if p.state.HeaderField? { HeaderFieldTidy(q, ch); }
    else if p.state.HeaderValue? { HeaderValueTidy(q, ch); }
    else if p.state.BodyIdentity? { BodyTidy(q, hooks); }
    else { ChunkedTidy(q, ch); }
  }

  lemma AdvanceTidy(p: Parser, ch: char, hooks: Hooks)
    requires Good(p)
    ensures Tidy(p.state, Advance(p, ch, hooks))
  {
    if !(ParsingHeader(p.state) && p.nread + 1 > MAX_HEADER_SIZE) {
      if Free(p.state) { SwitchFreeTidy(Counted(p), ch, hooks); } else { SwitchBusyTidy(p, ch, hooks); }
    }
  }
}
