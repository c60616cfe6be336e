/**
 * `utils.response.format`: turns one decoded upstream event into at most one
 * output delta, rewriting the upstream `<details>`/`<summary>` reasoning
 * markup into a canonical `<reasoning>`…`</reasoning>` pair, splicing the
 * boundary between reasoning and answer on the phase seen last, and rendering
 * the canonical markers in the configured `THINK_TAGS_MODE`.
 *
 * The global `phaseBak` is the field of the same name of class `Normalizer`;
 * `FormatSpec` states, as a function of the mode, the previous phase and the
 * event, what `format` returns and what it leaves in `phaseBak`.
 */
module Normalizer {
  import opened Wrappers
  import opened Text
  import opened Markup

  /** `THINK_TAGS_MODE`; any other setting falls back to `Unrecognized`. */
  datatype Mode = Reasoning | Think | StripTags | Details | Unrecognized

  /** The mode a `THINK_TAGS_MODE` setting selects. */
  function ModeOf(name: string): Mode {
    if name == "reasoning" then Reasoning
    else if name == "think" then Think
    else if name == "strip" then StripTags
    else if name == "details" then Details
    else Unrecognized
  }

  /** The fields of an event's `data` object that the proxy reads; `None`
      stands for a missing key. */
  datatype Payload = Payload(
    phase: Option<string>,
    deltaContent: Option<string>,
    editContent: Option<string>,
    done: Option<bool>)

  /** One decoded event; `data` is `None` when the key is missing. */
  datatype Record = Record(data: Option<Payload>)

  /** The dict `format` returns, always with role `assistant`. */
  datatype Delta = ReasoningContent(text: string) | Content(text: string)

  /** `format` raises: in `details` mode an answer event whose canonical
      text holds no `</reasoning>` reads the local `before` while it is
      unbound. */
  datatype FormatError = UnboundBefore

  /** `data.get("phase", "other")`. */
  function PhaseOf(p: Payload): string {
    if p.phase.Some? then p.phase.value else "other"
  }

  /** `data.get("delta_content") or data.get("edit_content") or ""`. */
  function TextOf(p: Payload): string {
    if p.deltaContent.Some? && p.deltaContent.value != "" then p.deltaContent.value
    else if p.editContent.Some? && p.editContent.value != "" then p.editContent.value
    else ""
  }

  /** The condition under which the markup is rewritten at all. */
  predicate Triggers(phase: string, content: string) {
    phase == "thinking" || (phase == "answer" && Contains(content, "summary>"))
  }

  const OpenMarker := "<reasoning>"
  const CloseMarker := "</reasoning>"
  const DetailsOpenTag := "<details type=\"reasoning\" open><div>"

  /** The rewrite into canonical markers: complete `<details>` blocks
      removed, deprecated tags dropped, summary lines of a thinking event
      collapsed to a blank line, remaining `<details …>` and `</details>`
      replaced by `<reasoning>` and `</reasoning>`. */
  function Canonical(phase: string, content: string): string {
    var c1 := Sub(DetailsBlock, content, "");
    var c2 := ReplaceAll(ReplaceAll(ReplaceAll(c1, "</thinking>", ""), "<Full>", ""), "</Full>", "");
    var c3 := if phase == "thinking" then Sub(SummaryLine, c2, "\n\n") else c2;
    var c4 := Sub(DetailsOpen, c3, "<reasoning>\n\n");
    Sub(DetailsClose, c4, "\n\n</reasoning>")
  }

  /** The answer-boundary splice on the canonical text of an answer event. */
  function Splice(prev: string, c: string): string {
    match SplitAtClose(c)
    case None => c
    case Some((_, after)) =>
      if Strip(after) != "" then
        if prev == "thinking" then "\n\n</reasoning>\n\n" + LStrip(after, Newline)
        else if prev == "answer" then ""
        else c
      else "\n\n</reasoning>"
  }

  /** The summary appended to the closing tag in `details` mode: the first
      summary span of `before`, or one made from its `duration` attribute. */
  function Thoughts(before: string): string {
    match SummarySpan(before)
    case Some(span) => "\n\n" + span
    case None =>
      match Duration(before)
      case Some(n) => "\n\n<summary>Thought for " + n + " seconds</summary>"
      case None => ""
  }

  /** The rendering-mode substitution; `before` is the text up to the first
      close marker, when one was found in an answer event. */
  function Render(mode: Mode, phase: string, c: string, before: Option<string>): Result<string, FormatError> {
    var q := if phase == "thinking" then Sub(QuotePrefix, c, "\n") else c;
    match mode
    case Reasoning =>
      Ok(Sub(ReasoningClose, Sub(ReasoningOpen, Sub(SummaryLine, q, ""), ""), ""))
    case Think =>
      Ok(ReplaceAll(ReplaceAll(Sub(SummaryLine, q, ""), OpenMarker, "<think>"), CloseMarker, "</think>"))
    case StripTags =>
      Ok(ReplaceAll(Sub(ReasoningOpen, Sub(SummaryLine, c, ""), ""), CloseMarker, ""))
    case Details =>
      var d := ReplaceAll(q, OpenMarker, DetailsOpenTag);
      if phase == "answer" && before.None? then Err(UnboundBefore)
      else
        var thoughts := if phase == "answer" then Thoughts(before.value) else "";
        Ok(ReplaceAll(d, CloseMarker, "</div>" + thoughts + "</details>"))
    case Unrecognized =>
      Ok(ReplaceAll(c, CloseMarker, "</reasoning>\n\n"))
  }

  /** The text of a triggered event after canonicalisation, splice and
      rendering. */
  function Transform(mode: Mode, prev: string, phase: string, raw: string): Result<string, FormatError> {
    var c := Canonical(phase, raw);
    var split := SplitAtClose(c);
    var spliced := if phase == "answer" then Splice(prev, c) else c;
    var before := if phase == "answer" && split.Some? then Some(split.value.0) else None;
    Render(mode, phase, spliced, before)
  }

  /** The output dict for the final text. */
  function Shape(mode: Mode, phase: string, text: string): Delta {
    if phase == "thinking" && mode == Reasoning then ReasoningContent(text) else Content(text)
  }

  /** What `format` returns for `rec` and the value it leaves in `phaseBak`,
      given the mode and the previous `phaseBak`. */
  function FormatSpec(mode: Mode, prev: string, rec: Record): (out: (Result<Option<Delta>, FormatError>, string))
    // nothing is emitted exactly when there is no data or no text
    ensures out.0 == Ok(None) <==> rec.data.None? || TextOf(rec.data.value) == ""
    // `phaseBak` moves to the event's phase exactly when a delta is emitted
    ensures out.0.Ok? && out.0.value.Some? ==> out.1 == PhaseOf(rec.data.value)
    ensures !(out.0.Ok? && out.0.value.Some?) ==> out.1 == prev
    // the only failure: `before` unbound in details mode
    ensures out.0.Err? <==>
      && rec.data.Some? && TextOf(rec.data.value) != ""
      && mode == Details && PhaseOf(rec.data.value) == "answer"
      && Contains(TextOf(rec.data.value), "summary>")
      && !Contains(Canonical("answer", TextOf(rec.data.value)), CloseMarker)
    // reasoning_content only for thinking events in reasoning mode
    ensures out.0.Ok? && out.0.value.Some? ==>
      (out.0.value.value.ReasoningContent? <==> PhaseOf(rec.data.value) == "thinking" && mode == Reasoning)
    // other phases, and answers without a summary marker, pass through
    ensures rec.data.Some? && TextOf(rec.data.value) != "" &&
            !Triggers(PhaseOf(rec.data.value), TextOf(rec.data.value)) ==>
      out.0 == Ok(Some(Content(TextOf(rec.data.value))))
  {
    if rec.data.None? then (Ok(None), prev)
    else
      var phase := PhaseOf(rec.data.value);
      var raw := TextOf(rec.data.value);
      if raw == "" then (Ok(None), prev)
      else if !Triggers(phase, raw) then (Ok(Some(Shape(mode, phase, raw))), phase)
      else
        match Transform(mode, prev, phase, raw)
        case Err(e) => (Err(e), prev)
        case Ok(text) => (Ok(Some(Shape(mode, phase, text))), phase)
  }

  // ---------------------------------------------------------------------------
  // Properties of `format`

  lemma SafeThinkTags()
    ensures SafeReplacement(OpenMarker, "<think>")
    ensures SafeReplacement(CloseMarker, "</think>")
    ensures SafeReplacement(OpenMarker, "</think>")
  {
    assert "<think>"[1] != OpenMarker[1];
    assert "</think>"[2] != CloseMarker[2];
    assert "</think>"[1] != OpenMarker[1];
  }

  /** In `think` mode the text emitted for a triggered event holds the
      think-tag spelling only: no canonical `<reasoning>` or `</reasoning>`
      survives. */
  lemma ThinkModeMarkers(prev: string, rec: Record)
    requires rec.data.Some? && TextOf(rec.data.value) != ""
    requires Triggers(PhaseOf(rec.data.value), TextOf(rec.data.value))
    ensures var out := FormatSpec(Think, prev, rec);
      && out.0.Ok? && out.0.value.Some? && out.0.value.value.Content?
      && !Contains(out.0.value.value.text, OpenMarker)
      && !Contains(out.0.value.value.text, CloseMarker)
  {
    var phase := PhaseOf(rec.data.value);
    var c := Canonical(phase, TextOf(rec.data.value));
    var spliced := if phase == "answer" then Splice(prev, c) else c;
    var q := if phase == "thinking" then Sub(QuotePrefix, spliced, "\n") else spliced;
    var x := Sub(SummaryLine, q, "");
    var y := ReplaceAll(x, OpenMarker, "<think>");
    SafeThinkTags();
    ReplaceRemoves(x, OpenMarker, "<think>");
    ReplaceRemoves(y, CloseMarker, "</think>");
    ReplaceKeepsAbsence(y, CloseMarker, "</think>", OpenMarker);
  }

  /** A thinking event whose text holds no markup and no line break is
      emitted unchanged in every mode, and `phaseBak` becomes `thinking`. */
  lemma PlainThinking(mode: Mode, prev: string, rec: Record)
    requires rec.data.Some? && PhaseOf(rec.data.value) == "thinking"
    requires TextOf(rec.data.value) != ""
    requires '<' !in TextOf(rec.data.value) && '\n' !in TextOf(rec.data.value)
    ensures FormatSpec(mode, prev, rec) ==
      (Ok(Some(if mode == Reasoning then ReasoningContent(TextOf(rec.data.value)) else Content(TextOf(rec.data.value)))),
       "thinking")
  {
    var raw := TextOf(rec.data.value);
    SubPlain(DetailsBlock, raw, "");
    ReplacePlain(raw, "</thinking>", "");
    ReplacePlain(raw, "<Full>", "");
    ReplacePlain(raw, "</Full>", "");
    SubPlain(SummaryLine, raw, "\n\n");
    SubPlain(DetailsOpen, raw, "<reasoning>\n\n");
    SubPlain(DetailsClose, raw, "\n\n</reasoning>");
    assert Canonical("thinking", raw) == raw;
    SubPlain(QuotePrefix, raw, "\n");
    SubPlain(SummaryLine, raw, "");
    SubPlain(ReasoningOpen, raw, "");
    SubPlain(ReasoningClose, raw, "");
    ReplacePlain(raw, OpenMarker, "<think>");
    ReplacePlain(raw, CloseMarker, "</think>");
    ReplacePlain(raw, CloseMarker, "");
    ReplacePlain(raw, OpenMarker, DetailsOpenTag);
    ReplacePlain(raw, CloseMarker, "</div>" + "" + "</details>");
    ReplacePlain(raw, CloseMarker, "</reasoning>\n\n");
    assert Render(mode, "thinking", raw, None) == Ok(raw);
  }

  /** Duplicate-closure suppression: an answer event that closes the
      reasoning block again, with answer text after the close marker, while
      the previous phase was already `answer`, is emitted as empty content
      in every mode. */
  lemma DuplicateClosure(mode: Mode, rec: Record)
    requires rec.data.Some? && PhaseOf(rec.data.value) == "answer"
    requires Contains(TextOf(rec.data.value), "summary>")
    requires var s := SplitAtClose(Canonical("answer", TextOf(rec.data.value)));
      s.Some? && Strip(s.value.1) != ""
    ensures FormatSpec(mode, "answer", rec) == (Ok(Some(Content(""))), "answer")
  {
    var c := Canonical("answer", TextOf(rec.data.value));
    assert Splice("answer", c) == "";
    assert forall p: Pattern, r: string :: Sub(p, "", r) == "";
    assert forall p: string, r: string :: |p| > 0 ==> ReplaceAll("", p, r) == "";
  }

  /** No summary line starts in the first fourteen characters of a text that
      begins with a blank line and a close marker. */
  lemma NoSummaryInHead(x: string)
    requires |x| >= 14 && x[..14] == "\n\n</reasoning>"
    ensures forall k :: 0 <= k < 14 ==> MatchAt(SummaryLine, x, k).None?
  {
    forall k | 0 <= k < 14 ensures MatchAt(SummaryLine, x, k).None? {
      assert x[k] == "\n\n</reasoning>"[k];
      var a := RunEnd(x, k, Newline);
      assert x[2] == '<' && x[3] == '/';
      assert a == (if k < 2 then 2 else k);
      assert !OccursAt(x, "<summary>", a) by {
        if a + 9 <= |x| {
          assert x[a..a + 9][0] == x[a] && x[a..a + 9][1] == x[a + 1];
        }
      }
    }
  }

  /** No open marker starts at a position holding something other than `<`,
      or a `<` not followed by `r`. */
  lemma NotOpenAt(s: string, k: nat)
    requires k < |s| && (s[k] != '<' || (k + 1 < |s| && s[k + 1] != 'r'))
    ensures !OccursAt(s, OpenMarker, k)
  {
    if k + 11 <= |s| {
      assert s[k..k + 11][0] == s[k] && s[k..k + 11][1] == s[k + 1];
    }
  }

  /** No open marker starts in the first fourteen characters of a text that
      begins with a blank line and a close marker. */
  lemma NoOpenInHead(s: string)
    requires |s| >= 14 && s[..14] == "\n\n</reasoning>"
    ensures forall k :: 0 <= k < 14 ==> !OccursAt(s, OpenMarker, k)
  {
    forall k | 0 <= k < 14 ensures !OccursAt(s, OpenMarker, k) {
      assert s[k] == "\n\n</reasoning>"[k];
      assert s[3] == '/';
      NotOpenAt(s, k);
    }
  }

  lemma HeadSplit(r: string)
    ensures ClosedHead + r == "\n\n" + (CloseMarker + r)
  {
    assert ClosedHead == "\n\n" + CloseMarker;
  }

  /** A close marker after a blank line is replaced and the rest copied. */
  lemma CloseRewriteHead(t2: string, r: string)
    ensures ReplaceAll("\n\n" + (CloseMarker + t2), CloseMarker, r)
      == "\n\n" + (r + ReplaceAll(t2, CloseMarker, r))
  {
    forall k | 0 <= k < 2 ensures !OccursAt("\n\n" + (CloseMarker + t2), CloseMarker, k) {
      if k + 12 <= |"\n\n" + (CloseMarker + t2)| {
        assert ("\n\n" + (CloseMarker + t2))[k..k + 12][0] == '\n';
      }
    }
    ReplaceSkips("\n\n", CloseMarker + t2, CloseMarker, r);
    assert (CloseMarker + t2)[..12] == CloseMarker;
    assert (CloseMarker + t2)[12..] == t2;
  }

  // The spliced answer: `ClosedHead` followed by text without markup.

  const ClosedHead := "\n\n</reasoning>"

  /** What each mode emits for `ClosedHead + rest` when `rest` holds no
      markup; `thoughts` is the summary `details` mode appends. */
  function ClosedAnswer(mode: Mode, rest: string, thoughts: string): string {
    match mode
    case Reasoning => rest
    case Think => "\n\n</think>" + rest
    case StripTags => "\n\n" + rest
    case Details => "\n\n</div>" + thoughts + "</details>" + rest
    case Unrecognized => "\n\n</reasoning>\n\n" + rest
  }

  /** Past the head, a tag pattern finds no `<` and so no match. */
  lemma NoTagAfterHead(p: Pattern, rest: string)
    requires TagPattern(p) && '<' !in rest
    ensures forall k :: 14 <= k < |ClosedHead + rest| ==> MatchAt(p, ClosedHead + rest, k).None?
  {
    var x := ClosedHead + rest;
    forall k | 14 <= k < |x| ensures MatchAt(p, x, k).None? {
      if MatchAt(p, x, k).Some? {
        MatchNeeds(p, x, k);
      }
    }
  }

  /** A tag pattern that matches nowhere in the head leaves the text as it is. */
  lemma SubClosedUnchanged(p: Pattern, rest: string, r: string)
    requires TagPattern(p) && '<' !in rest
    requires forall k :: 0 <= k < 14 ==> MatchAt(p, ClosedHead + rest, k).None?
    ensures Sub(p, ClosedHead + rest, r) == ClosedHead + rest
  {
    var x := ClosedHead + rest;
    NoTagAfterHead(p, rest);
    SubSkips(p, x, 0, |x|, r);
    assert x[0..|x|] == x;
  }

  lemma SummaryFreeClosed(rest: string)
    requires '<' !in rest
    ensures Sub(SummaryLine, ClosedHead + rest, "") == ClosedHead + rest
  {
    assert (ClosedHead + rest)[..14] == ClosedHead;
    NoSummaryInHead(ClosedHead + rest);
    SubClosedUnchanged(SummaryLine, rest, "");
  }

  lemma OpenFreeClosed(rest: string)
    requires '<' !in rest
    ensures Sub(ReasoningOpen, ClosedHead + rest, "") == ClosedHead + rest
  {
    assert (ClosedHead + rest)[..14] == ClosedHead;
    NoOpenInHead(ClosedHead + rest);
    SubClosedUnchanged(ReasoningOpen, rest, "");
  }

  /** `\n*</reasoning>` removes the head and nothing else. */
  lemma CloseStrippedClosed(rest: string)
    requires '<' !in rest
    ensures Sub(ReasoningClose, ClosedHead + rest, "") == rest
  {
    var x := ClosedHead + rest;
    assert x[0] == '\n' && x[1] == '\n' && x[2] == '<';
    assert RunEnd(x, 0, Newline) == 2;
    assert x[2..14] == CloseMarker;
    assert MatchAt(ReasoningClose, x, 0) == Some(14);
    NoTagAfterHead(ReasoningClose, rest);
    SubSkips(ReasoningClose, x, 14, |x|, "");
    assert x[14..|x|] == rest;
  }

  lemma OpenReplaceClosed(rest: string, r: string)
    requires '<' !in rest
    ensures ReplaceAll(ClosedHead + rest, OpenMarker, r) == ClosedHead + rest
  {
    assert (ClosedHead + rest)[..14] == ClosedHead;
    NoOpenInHead(ClosedHead + rest);
    ReplaceSkips(ClosedHead, rest, OpenMarker, r);
    ReplacePlain(rest, OpenMarker, r);
  }

  lemma CloseReplaceClosed(rest: string, r: string)
    requires '<' !in rest
    ensures ReplaceAll(ClosedHead + rest, CloseMarker, r) == "\n\n" + r + rest
  {
    HeadSplit(rest);
    CloseRewriteHead(rest, r);
    ReplacePlain(rest, CloseMarker, r);
  }

  /** Every mode renders `ClosedHead + rest` as `ClosedAnswer` says. */
  lemma RenderClosed(mode: Mode, rest: string, before: string)
    requires '<' !in rest
    ensures Render(mode, "answer", ClosedHead + rest, Some(before)) == Ok(ClosedAnswer(mode, rest, Thoughts(before)))
  {
    match mode
    case Reasoning => RenderClosedReasoning(rest);
    case Think => RenderClosedThink(rest);
    case StripTags => RenderClosedStripTags(rest);
    case Details => RenderClosedDetails(rest, before);
    case Unrecognized => RenderClosedUnrecognized(rest);
  }

  lemma RenderClosedUnrecognized(rest: string)
    requires '<' !in rest
    ensures Render(Unrecognized, "answer", ClosedHead + rest, None) == Ok("\n\n</reasoning>\n\n" + rest)
  {
    CloseReplaceClosed(rest, "</reasoning>\n\n");
    assert "\n\n" + "</reasoning>\n\n" == "\n\n</reasoning>\n\n";
  }

  lemma RenderClosedReasoning(rest: string)
    requires '<' !in rest
    ensures Render(Reasoning, "answer", ClosedHead + rest, None) == Ok(rest)
  {
    SummaryFreeClosed(rest);
    OpenFreeClosed(rest);
    CloseStrippedClosed(rest);
  }

  lemma RenderClosedThink(rest: string)
    requires '<' !in rest
    ensures Render(Think, "answer", ClosedHead + rest, None) == Ok("\n\n</think>" + rest)
  {
    SummaryFreeClosed(rest);
    OpenReplaceClosed(rest, "<think>");
    CloseReplaceClosed(rest, "</think>");
    ThinkJoin(rest);
  }

  lemma ThinkJoin(rest: string)
    ensures "\n\n" + "</think>" + rest == "\n\n</think>" + rest
  {
    assert "\n\n" + "</think>" == "\n\n</think>";
  }

  lemma RenderClosedStripTags(rest: string)
    requires '<' !in rest
    ensures Render(StripTags, "answer", ClosedHead + rest, None) == Ok("\n\n" + rest)
  {
    SummaryFreeClosed(rest);
    OpenFreeClosed(rest);
    CloseReplaceClosed(rest, "");
    assert "\n\n" + "" == "\n\n";
  }

  lemma RenderClosedDetails(rest: string, before: string)
    requires '<' !in rest
    ensures Render(Details, "answer", ClosedHead + rest, Some(before))
      == Ok("\n\n</div>" + Thoughts(before) + "</details>" + rest)
  {
    OpenReplaceClosed(rest, DetailsOpenTag);
    CloseReplaceClosed(rest, "</div>" + Thoughts(before) + "</details>");
    DetailsJoin(Thoughts(before), rest);
  }

  lemma DetailsJoin(thoughts: string, rest: string)
    ensures "\n\n" + ("</div>" + thoughts + "</details>") + rest == "\n\n</div>" + thoughts + "</details>" + rest
  {
    assert "\n\n" + "</div>" == "\n\n</div>";
  }

  /** The characters of `LStrip(s, cs)` come from `s`. */
  lemma LStripKeepsAbsence(s: string, cs: set<char>, c: char)
    requires c !in s
    ensures c !in LStrip(s, cs)
  {
    var r := LStrip(s, cs);
    forall i | 0 <= i < |r| ensures r[i] != c {
      assert r[i] == s[|s| - |r| + i];
    }
  }

  /** `Transform` of an answer after a thinking event, when the text after
      the first close marker is not blank and holds no markup. */
  lemma TransformAfterThinking(mode: Mode, raw: string)
    requires var s := SplitAtClose(Canonical("answer", raw));
      s.Some? && Strip(s.value.1) != "" && '<' !in s.value.1
    ensures var s := SplitAtClose(Canonical("answer", raw)).value;
      Transform(mode, "thinking", "answer", raw) == Ok(ClosedAnswer(mode, "\n\n" + LStrip(s.1, Newline), Thoughts(s.0)))
  {
    var c := Canonical("answer", raw);
    var s := SplitAtClose(c).value;
    var rest := "\n\n" + LStrip(s.1, Newline);
    LStripKeepsAbsence(s.1, Newline, '<');
    SpliceText(LStrip(s.1, Newline));
    assert Splice("thinking", c) == ClosedHead + rest;
    RenderClosed(mode, rest, s.0);
  }

  lemma SpliceText(l: string)
    ensures "\n\n</reasoning>\n\n" + l == ClosedHead + ("\n\n" + l)
  {
  }

  /** `Transform` of an answer whose text after the first close marker is
      blank, whatever the previous phase. */
  lemma TransformBlankAfter(mode: Mode, prev: string, raw: string)
    requires var s := SplitAtClose(Canonical("answer", raw)); s.Some? && Strip(s.value.1) == ""
    ensures var s := SplitAtClose(Canonical("answer", raw)).value;
      Transform(mode, prev, "answer", raw) == Ok(ClosedAnswer(mode, "", Thoughts(s.0)))
  {
    var c := Canonical("answer", raw);
    assert ClosedHead + "" == ClosedHead;
    assert Splice(prev, c) == ClosedHead + "";
    RenderClosed(mode, "", SplitAtClose(c).value.0);
  }

  /** The output of a triggered event with text, in terms of `Transform`. */
  lemma FormatTriggered(mode: Mode, prev: string, rec: Record)
    requires rec.data.Some? && TextOf(rec.data.value) != ""
    requires Triggers(PhaseOf(rec.data.value), TextOf(rec.data.value))
    ensures var phase := PhaseOf(rec.data.value);
      var t := Transform(mode, prev, phase, TextOf(rec.data.value));
      FormatSpec(mode, prev, rec) == if t.Err? then (Err(t.error), prev) else (Ok(Some(Shape(mode, phase, t.value))), phase)
  {
  }

  /** The boundary splice: when the previous event was a thinking event, an
      answer event that closes the reasoning block with answer text after it
      is emitted as the close marker, a blank line and that text without its
      leading line breaks, each mode spelling the close marker its own way
      (`</think>` in `think` mode, the summary in `details` mode, nothing in
      `reasoning` mode). */
  lemma BoundarySplice(mode: Mode, rec: Record)
    requires rec.data.Some? && PhaseOf(rec.data.value) == "answer"
    requires Contains(TextOf(rec.data.value), "summary>")
    requires var s := SplitAtClose(Canonical("answer", TextOf(rec.data.value)));
      s.Some? && Strip(s.value.1) != "" && '<' !in s.value.1
    ensures var s := SplitAtClose(Canonical("answer", TextOf(rec.data.value))).value;
      FormatSpec(mode, "thinking", rec) ==
        (Ok(Some(Content(ClosedAnswer(mode, "\n\n" + LStrip(s.1, Newline), Thoughts(s.0))))), "answer")
  {
    TransformAfterThinking(mode, TextOf(rec.data.value));
    FormatTriggered(mode, "thinking", rec);
  }

  /** An answer event whose text after the first close marker is blank is
      emitted as the bare close marker in every mode's spelling, whatever the
      previous phase. */
  lemma BlankAfterClose(mode: Mode, prev: string, rec: Record)
    requires rec.data.Some? && PhaseOf(rec.data.value) == "answer"
    requires Contains(TextOf(rec.data.value), "summary>")
    requires var s := SplitAtClose(Canonical("answer", TextOf(rec.data.value)));
      s.Some? && Strip(s.value.1) == ""
    ensures var s := SplitAtClose(Canonical("answer", TextOf(rec.data.value))).value;
      FormatSpec(mode, prev, rec) == (Ok(Some(Content(ClosedAnswer(mode, "", Thoughts(s.0))))), "answer")
  {
    TransformBlankAfter(mode, prev, TextOf(rec.data.value));
    FormatTriggered(mode, prev, rec);
  }

  /** After anything other than a thinking or an answer event, the canonical
      text of an answer is rendered as it is: no splice. */
  lemma NoSpliceAfterOther(mode: Mode, prev: string, rec: Record)
    requires prev != "thinking" && prev != "answer"
    requires rec.data.Some? && PhaseOf(rec.data.value) == "answer"
    requires Contains(TextOf(rec.data.value), "summary>")
    requires var s := SplitAtClose(Canonical("answer", TextOf(rec.data.value)));
      s.Some? && Strip(s.value.1) != ""
    ensures var c := Canonical("answer", TextOf(rec.data.value));
      var t := Render(mode, "answer", c, Some(SplitAtClose(c).value.0));
      FormatSpec(mode, prev, rec) == if t.Err? then (Err(t.error), prev) else (Ok(Some(Content(t.value))), "answer")
  {
    var c := Canonical("answer", TextOf(rec.data.value));
    assert Splice(prev, c) == c;
    FormatTriggered(mode, prev, rec);
  }

  /** The first half of `format`: the rewrite into canonical markers. */
  method Canonicalize(phase: string, raw: string) returns (content: string)
    ensures content == Canonical(phase, raw)
  {
    content := Sub(DetailsBlock, raw, "");
    content := ReplaceAll(content, "</thinking>", "");
    content := ReplaceAll(content, "<Full>", "");
    content := ReplaceAll(content, "</Full>", "");
    if phase == "thinking" {
      content := Sub(SummaryLine, content, "\n\n");
    }
    content := Sub(DetailsOpen, content, "<reasoning>\n\n");
    content := Sub(DetailsClose, content, "\n\n</reasoning>");
  }

  /** The second half of `format`: the rendering-mode substitution. */
  method RenderMarkup(mode: Mode, phase: string, c: string, before: Option<string>)
    returns (r: Result<string, FormatError>)
    ensures r == Render(mode, phase, c, before)
  {
    var content := c;
    match mode {
      case Reasoning =>
        if phase == "thinking" {
          content := Sub(QuotePrefix, content, "\n");
        }
        content := Sub(SummaryLine, content, "");
        content := Sub(ReasoningOpen, content, "");
        content := Sub(ReasoningClose, content, "");
      case Think =>
        if phase == "thinking" {
          content := Sub(QuotePrefix, content, "\n");
        }
        content := Sub(SummaryLine, content, "");
        content := ReplaceAll(content, OpenMarker, "<think>");
        content := ReplaceAll(content, CloseMarker, "</think>");
      case StripTags =>
        content := Sub(SummaryLine, content, "");
        content := Sub(ReasoningOpen, content, "");
        content := ReplaceAll(content, CloseMarker, "");
      case Details =>
        if phase == "thinking" {
          content := Sub(QuotePrefix, content, "\n");
        }
        content := ReplaceAll(content, OpenMarker, DetailsOpenTag);
        var thoughts := "";
        if phase == "answer" {
          if before.None? {
            return Err(UnboundBefore);
          }
          match SummarySpan(before.value) {
            case Some(span) =>
              thoughts := "\n\n" + span;
            case None =>
              match Duration(before.value) {
                case Some(n) =>
                  thoughts := "\n\n<summary>Thought for " + n + " seconds</summary>";
                case None =>
              }
          }
        }
        content := ReplaceAll(content, CloseMarker, "</div>" + thoughts + "</details>");
      case Unrecognized =>
        content := ReplaceAll(content, CloseMarker, "</reasoning>\n\n");
    }
    r := Ok(content);
  }

  /** `utils.response.format` together with the global `phaseBak` it
      reads and writes. */
  class Normalizer {
    /** `THINK_TAGS_MODE`, fixed at start-up. */
    const mode: Mode
    /** The phase of the last event that produced a delta. */
    var phaseBak: string

    constructor (mode: Mode)
      ensures this.mode == mode && phaseBak == "thinking"
    {
      this.mode := mode;
      phaseBak := "thinking";
    }

    /** `format(data)`. */
    method Format(rec: Record) returns (r: Result<Option<Delta>, FormatError>)
      modifies this
      ensures (r, phaseBak) == FormatSpec(mode, old(phaseBak), rec)
    {
      if rec.data.None? {
        return Ok(None);
      }
      var data := rec.data.value;
      var phase := if data.phase.Some? then data.phase.value else "other";
      var content := TextOf(data);
      if content == "" {
        return Ok(None);
      }
      if phase == "thinking" || (phase == "answer" && Contains(content, "summary>")) {
        ghost var raw := content;
        content := Canonicalize(phase, content);
        ghost var canonical := content;
        var before: Option<string> := None;
        if phase == "answer" {
          var m := SplitAtClose(content);
          if m.Some? {
            before := Some(m.value.0);
            var after := m.value.1;
            if Strip(after) != "" {
              if phaseBak == "thinking" {
                content := "\n\n</reasoning>\n\n" + LStrip(after, Newline);
              } else if phaseBak == "answer" {
                content := "";
              }
            } else {
              content := "\n\n</reasoning>";
            }
          }
        }
        assert content == if phase == "answer" then Splice(phaseBak, canonical) else canonical;
        var rendered := RenderMarkup(mode, phase, content, before);
        assert rendered == Transform(mode, phaseBak, phase, raw);
        if rendered.Err? {
          return Err(rendered.error);
        }
        content := rendered.value;
      }
      phaseBak := phase;
      if phase == "thinking" && mode == Reasoning {
        r := Ok(Some(ReasoningContent(content)));
      } else {
        r := Ok(Some(Content(content)));
      }
    }
  }
}
