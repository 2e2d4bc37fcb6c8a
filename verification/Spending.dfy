/**
 How often writing one message charges its user.  The writes of a message are
 folded over its row; each may record spending.
 */
module Spending {
  import opened Prelude
  import opened ChatMessages
  import opened Chats

  /** The row after a run of writes. */
  function RowAfter(row: Option<Row>, chatId: Id, writes: seq<Message>): Option<Row>
    decreases |writes|
  {
    if writes == [] then row
    else RowAfter(Some(WrittenRow(row, chatId, writes[0])), chatId, writes[1..])
  }

  /** How many writes of the run charge the user. */
  function Charged(row: Option<Row>, chatId: Id, writes: seq<Message>): nat
    decreases |writes|
  {
    if writes == [] then 0
    else (if Charges(row, writes[0]) then 1 else 0) + Charged(Some(WrittenRow(row, chatId, writes[0])), chatId, writes[1..])
  }

  predicate IsDone(m: Message)
  {
    m.done == Present(true)
  }

  /** A usage report, if any, carries a non-zero number of input tokens. */
  predicate HonestReport(m: Message)
  {
    GetUsage(m).Some? ==> HasTokens(GetUsage(m).value)
  }

  /** Writes up to, and without, the first that carries a usage report. */
  function TokenFree(writes: seq<Message>): (n: nat)
    ensures n <= |writes|
    ensures n < |writes| ==> GetUsage(writes[n]).Some?
    ensures forall i | 0 <= i < n :: GetUsage(writes[i]).None?
  {
    if writes == [] || GetUsage(writes[0]).Some? then 0 else 1 + TokenFree(writes[1..])
  }

  function DoneCount(writes: seq<Message>): nat
  {
    if writes == [] then 0 else (if IsDone(writes[0]) then 1 else 0) + DoneCount(writes[1..])
  }

  /** Token-free done writes that find, or make, the message an assistant's. */
  function DoneAsAssistant(role: string, writes: seq<Message>): nat
    decreases |writes|
  {
    if writes == [] then 0
    else
      var r := writes[0].role.GetOr(role);
      (if IsDone(writes[0]) && r == "assistant" then 1 else 0) + DoneAsAssistant(r, writes[1..])
  }

  function RoleOf(row: Option<Row>): string
  {
    if row.Some? then row.value.role else "user"
  }

  /** Merging a report with tokens into a row leaves tokens on it. */
  lemma ReportLeavesTokens(row: Option<Row>, chatId: Id, m: Message)
    requires HonestReport(m)
    requires GetUsage(m).Some? || (row.Some? && HoldsTokens(row.value))
    ensures HoldsTokens(WrittenRow(row, chatId, m))
  {
  }

  /** The normalized input count is non-zero whenever the prompt count is. */
  lemma NormalizedInput(raw: Usage)
    ensures var u := NormalizeUsage(raw);
            Count(u, "prompt_tokens") == Count(raw, "prompt_tokens")
            && (HasTokens(u) <==> Count(u, "input_tokens") != 0)
  {
    var names := ["input_tokens", "prompt_tokens", "prompt_eval_count", "prompt_n"];
    assert names[1..][0] == "prompt_tokens";
    assert Count(raw, "prompt_tokens") != 0 ==> FirstNonZero(raw, names) != 0;
  }

  /** Once the row holds tokens, no honest write charges again. */
  lemma {:induction false} NoChargeOnceTokensAreHeld(row: Row, chatId: Id, writes: seq<Message>)
    requires HoldsTokens(row) && forall i | 0 <= i < |writes| :: HonestReport(writes[i])
    ensures Charged(Some(row), chatId, writes) == 0
    decreases |writes|
  {
    if writes != [] {
      ReportLeavesTokens(Some(row), chatId, writes[0]);
      NoChargeOnceTokensAreHeld(WrittenRow(Some(row), chatId, writes[0]), chatId, writes[1..]);
    }
  }

  /** The row counts prompt tokens under the provider's own name. */
  predicate CountsPrompt(r: Row)
  {
    r.usage.Some? && Count(r.usage.value, "prompt_tokens") != 0
  }

  /**
   Nor does any write once the row counts prompt tokens, unless a report names them as zero: a later
   report without input tokens resets the row's input count and leaves that one.
   */
  lemma {:induction false} NoChargeOncePromptIsCounted(row: Row, chatId: Id, writes: seq<Message>)
    requires CountsPrompt(row)
    requires forall i | 0 <= i < |writes| && GetUsage(writes[i]).Some? ::
               "prompt_tokens" in GetUsage(writes[i]).value ==> GetUsage(writes[i]).value["prompt_tokens"] != 0
    ensures Charged(Some(row), chatId, writes) == 0
    decreases |writes|
  {
    if writes != [] {
      assert CountsPrompt(WrittenRow(Some(row), chatId, writes[0]));
      NoChargeOncePromptIsCounted(WrittenRow(Some(row), chatId, writes[0]), chatId, writes[1..]);
    }
  }

  predicate Tokenless(row: Option<Row>)
  {
    row.Some? ==> !HoldsTokens(row.value)
  }

  /**
   The exact count for a message that holds no tokens yet.  With n writes before
   the first report, it is one charge for each of them that is done and an
   assistant's, and one more when the reporting write itself charges.
   */
  lemma {:induction false} ExactCharges(row: Option<Row>, chatId: Id, writes: seq<Message>)
    requires Tokenless(row) && forall i | 0 <= i < |writes| :: HonestReport(writes[i])
    ensures var n := TokenFree(writes);
            Charged(row, chatId, writes)
            == DoneAsAssistant(RoleOf(row), writes[..n])
               + (if n < |writes| && Charges(RowAfter(row, chatId, writes[..n]), writes[n]) then 1 else 0)
    decreases |writes|
  {
    if writes == [] {
    } else if GetUsage(writes[0]).Some? {
      ReportLeavesTokens(row, chatId, writes[0]);
      NoChargeOnceTokensAreHeld(WrittenRow(row, chatId, writes[0]), chatId, writes[1..]);
      assert writes[..0] == [];
    } else {
      var next := WrittenRow(row, chatId, writes[0]);
      var n := TokenFree(writes);
      ExactCharges(Some(next), chatId, writes[1..]);
      assert writes[..n][0] == writes[0];
      assert writes[..n][1..] == writes[1..][..n - 1];
    }
  }

  lemma {:induction false} DoneAsAssistantBound(role: string, writes: seq<Message>)
    ensures DoneAsAssistant(role, writes) <= DoneCount(writes)
    decreases |writes|
  {
    if writes != [] {
      DoneAsAssistantBound(writes[0].role.GetOr(role), writes[1..]);
    }
  }

  /** At most one charge beyond the token-free done writes that precede the first report. */
  lemma ChargesAreBounded(chatId: Id, writes: seq<Message>)
    requires forall i | 0 <= i < |writes| :: HonestReport(writes[i])
    ensures Charged(None, chatId, writes) <= 1 + DoneCount(writes[..TokenFree(writes)])
  {
    ExactCharges(None, chatId, writes);
    DoneAsAssistantBound("user", writes[..TokenFree(writes)]);
  }

  /**
   A message escapes charging altogether exactly when no assistant write before
   the first report is done and the reporting write does not charge: with an
   earlier row in place, a report that comes without `done` never does.
   */
  lemma NeverChargedIff(chatId: Id, writes: seq<Message>)
    requires forall i | 0 <= i < |writes| :: HonestReport(writes[i])
    ensures var n := TokenFree(writes);
            Charged(None, chatId, writes) == 0
            <==> DoneAsAssistant("user", writes[..n]) == 0
                 && (n < |writes| ==> if n == 0 then writes[0].role.GetOr("user") != "assistant" else !IsDone(writes[n]))
  {
    var n := TokenFree(writes);
    ExactCharges(None, chatId, writes);
    if 0 < n < |writes| {
      TokenlessAfter(None, chatId, writes[..n]);
    } else if n == 0 {
      assert writes[..n] == [];
    }
  }

  lemma {:induction false} TokenlessAfter(row: Option<Row>, chatId: Id, writes: seq<Message>)
    requires Tokenless(row) && forall i | 0 <= i < |writes| :: GetUsage(writes[i]).None?
    ensures Tokenless(RowAfter(row, chatId, writes))
    ensures writes != [] ==> RowAfter(row, chatId, writes).Some?
    decreases |writes|
  {
    if writes != [] {
      TokenlessAfter(Some(WrittenRow(row, chatId, writes[0])), chatId, writes[1..]);
    }
  }

  /** A report whose input count is zero. */
  const EMPTY_REPORT := BLANK.(role := Present("assistant"), done := Present(true), usage := Present(map["output_tokens" := 1]))

  /** Without non-zero input counts there is no bound: every repeated done write charges. */
  lemma {:induction false} ZeroInputReportsChargeEveryTime(chatId: Id, row: Option<Row>, n: nat)
    requires row.Some? ==> Tokenless(row) && row.value.role == "assistant"
    ensures Charged(row, chatId, seq(n, i => EMPTY_REPORT)) == n
    decreases n
  {
    var writes := seq(n, i => EMPTY_REPORT);
    if n > 0 {
      var next := WrittenRow(row, chatId, EMPTY_REPORT);
      ZeroReport();
      assert writes[1..] == seq(n - 1, i => EMPTY_REPORT);
      ZeroInputReportsChargeEveryTime(chatId, Some(next), n - 1);
    }
  }

  lemma {:induction false} NoNonZero(u: Usage, names: seq<string>)
    requires forall i | 0 <= i < |names| :: Count(u, names[i]) == 0
    ensures FirstNonZero(u, names) == 0
    decreases |names|
  {
    if names != [] {
      NoNonZero(u, names[1..]);
    }
  }

  lemma ZeroReport()
    ensures GetUsage(EMPTY_REPORT).Some? && !HasTokens(GetUsage(EMPTY_REPORT).value)
    ensures "input_tokens" in GetUsage(EMPTY_REPORT).value && "prompt_tokens" !in GetUsage(EMPTY_REPORT).value
  {
    var raw: Usage := map["output_tokens" := 1];
    NoNonZero(raw, ["input_tokens", "prompt_tokens", "prompt_eval_count", "prompt_n"]);
    assert "output_tokens" in raw;
    assert GetUsage(EMPTY_REPORT) == Some(NormalizeUsage(raw));
  }

  /** A placeholder, a first report that does not say done, and the done write after it. */
  const PLACEHOLDER := BLANK.(role := Present("assistant"), done := Present(false))
  const EARLY_REPORT := BLANK.(usage := Present(map["input_tokens" := 5]))
  const DONE_WRITE := BLANK.(done := Present(true))

  lemma EarlyReport()
    ensures GetUsage(EARLY_REPORT).Some? && HasTokens(GetUsage(EARLY_REPORT).value)
  {
    var raw: Usage := map["input_tokens" := 5];
    assert "input_tokens" in raw;
    assert GetUsage(EARLY_REPORT) == Some(NormalizeUsage(raw));
  }

  /** Such a message is never charged, though its report is honest and it ends done. */
  lemma EarlyReportEscapes(chatId: Id)
    ensures var writes := [PLACEHOLDER, EARLY_REPORT, DONE_WRITE];
            (forall i | 0 <= i < 3 :: HonestReport(writes[i])) && Charged(None, chatId, writes) == 0
  {
    var writes := [PLACEHOLDER, EARLY_REPORT, DONE_WRITE];
    EarlyReport();
    assert GetUsage(PLACEHOLDER).None? && GetUsage(DONE_WRITE).None?;
    assert TokenFree(writes) == 1;
    assert writes[..1] == [PLACEHOLDER];
    assert DoneAsAssistant("user", [PLACEHOLDER]) == 0;
    NeverChargedIff(chatId, writes);
  }

  // ---------------------------------------------------- patches of a message

  /** What the chat store passes on for each patch: the message merged so far. */
  function Merged(m: Option<Message>, patches: seq<Message>): (r: seq<Message>)
    ensures |r| == |patches|
    decreases |patches|
  {
    if patches == [] then []
    else
      var next := if m.Some? then Merge(m.value, patches[0]) else patches[0];
      [next] + Merged(Some(next), patches[1..])
  }

  /** One upsert of a chat passes on the stored message merged with the patch. */
  lemma MergedIsWritten(h: History, id: Id, patch: Message)
    ensures Merged(if id in h.messages then Some(h.messages[id]) else None, [patch]) == [Written(h, id, patch)]
  {
  }

  /** The message is done once a patch says so, until one says otherwise. */
  predicate DoneAfter(done: bool, patches: seq<Message>)
    decreases |patches|
  {
    if patches == [] then done else DoneAfter(if patches[0].done.Present? then patches[0].done.value else done, patches[1..])
  }

  function RoleAfter(role: string, patches: seq<Message>): string
    decreases |patches|
  {
    if patches == [] then role else RoleAfter(patches[0].role.GetOr(role), patches[1..])
  }

  lemma {:induction false} MergedAt(m: Option<Message>, patches: seq<Message>, i: nat)
    requires i < |patches|
    ensures IsDone(Merged(m, patches)[i]) <==> DoneAfter(m.Some? && IsDone(m.value), patches[..i + 1])
    ensures Merged(m, patches)[i].role.GetOr("user")
            == RoleAfter(if m.Some? then m.value.role.GetOr("user") else "user", patches[..i + 1])
    decreases |patches|
  {
    var next := if m.Some? then Merge(m.value, patches[0]) else patches[0];
    assert patches[..i + 1][0] == patches[0] && patches[..i + 1][1..] == patches[1..][..i];
    if i > 0 {
      MergedAt(Some(next), patches[1..], i - 1);
    }
  }

  /** The patches, before the first usage report of the merged message, that leave it a done assistant message. */
  function DoneAssistants(patches: seq<Message>, n: nat): nat
    requires n <= |patches|
  {
    if n == 0 then 0
    else DoneAssistants(patches, n - 1)
         + if DoneAfter(false, patches[..n]) && RoleAfter("user", patches[..n]) == "assistant" then 1 else 0
  }

  lemma {:induction false} DoneAsAssistantAppend(role: string, writes: seq<Message>, m: Message)
    ensures DoneAsAssistant(role, writes + [m])
            == DoneAsAssistant(role, writes) + if IsDone(m) && m.role.GetOr(LastRole(role, writes)) == "assistant" then 1 else 0
    decreases |writes|
  {
    if writes == [] {
      assert writes + [m] == [m];
    } else {
      assert (writes + [m])[1..] == writes[1..] + [m];
      DoneAsAssistantAppend(writes[0].role.GetOr(role), writes[1..], m);
    }
  }

  function LastRole(role: string, writes: seq<Message>): string
    decreases |writes|
  {
    if writes == [] then role else LastRole(writes[0].role.GetOr(role), writes[1..])
  }

  /** A role once sent stays on the merged message. */
  lemma {:induction false} RoleIsKept(m: Option<Message>, patches: seq<Message>, i: nat)
    requires i < |patches| && Merged(m, patches)[i].role.Absent?
    ensures m.Some? ==> m.value.role.Absent?
    ensures forall j | 0 <= j <= i :: Merged(m, patches)[j].role.Absent?
    decreases |patches|
  {
    var next := if m.Some? then Merge(m.value, patches[0]) else patches[0];
    if i > 0 {
      RoleIsKept(Some(next), patches[1..], i - 1);
      forall j | 0 <= j <= i ensures Merged(m, patches)[j].role.Absent? {
        assert j > 0 ==> Merged(m, patches)[j] == Merged(Some(next), patches[1..])[j - 1];
      }
    }
  }

  lemma {:induction false} NoRoles(role: string, writes: seq<Message>)
    requires forall i | 0 <= i < |writes| :: writes[i].role.Absent?
    ensures LastRole(role, writes) == role
    decreases |writes|
  {
    if writes != [] {
      NoRoles(role, writes[1..]);
    }
  }

  lemma {:induction false} MergedDoneAssistants(patches: seq<Message>, n: nat)
    requires n <= |patches|
    ensures DoneAsAssistant("user", Merged(None, patches)[..n]) == DoneAssistants(patches, n)
    decreases n
  {
    var w := Merged(None, patches);
    if n > 0 {
      var before, m := w[..n - 1], w[n - 1];
      MergedDoneAssistants(patches, n - 1);
      assert w[..n] == before + [m];
      DoneAsAssistantAppend("user", before, m);
      MergedAt(None, patches, n - 1);
      if m.role.Absent? {
        RoleIsKept(None, patches, n - 1);
        NoRoles("user", before);
      }
    }
  }

  /** The write that first reports tokens charges when it makes an assistant's row, or leaves an older row's message done. */
  lemma FirstReportCharges(chatId: Id, writes: seq<Message>, n: nat)
    requires n == TokenFree(writes) && n < |writes|
    ensures Charges(RowAfter(None, chatId, writes[..n]), writes[n])
            <==> if n == 0 then writes[0].role.GetOr("user") == "assistant" else IsDone(writes[n])
  {
    if n > 0 {
      TokenlessAfter(None, chatId, writes[..n]);
    } else {
      assert writes[..n] == [];
    }
  }

  /**
   The exact count over a run of upserts of one message.  Each patch before the first report
   charges that leaves the message done and an assistant's, so after one done patch every later
   one does; the first report adds one more under the same condition, or for a new row when it is
   an assistant's.
   */
  lemma ExactPatchCharges(chatId: Id, patches: seq<Message>)
    requires forall i | 0 <= i < |patches| :: HonestReport(Merged(None, patches)[i])
    ensures var n := TokenFree(Merged(None, patches));
            var reportCharges := n < |patches| && if n == 0 then RoleAfter("user", patches[..1]) == "assistant"
                                                  else DoneAfter(false, patches[..n + 1]);
            Charged(None, chatId, Merged(None, patches)) == DoneAssistants(patches, n) + if reportCharges then 1 else 0
  {
    var w := Merged(None, patches);
    var n := TokenFree(w);
    ExactCharges(None, chatId, w);
    MergedDoneAssistants(patches, n);
    if n < |patches| {
      FirstReportCharges(chatId, w, n);
      MergedAt(None, patches, n);
    }
  }

  /** An empty patch, as a change of content alone is here, charges again whenever the message is done without tokens. */
  lemma {:induction false} ContentPatchesCharge(chatId: Id, row: Row, m: Message, k: nat)
    requires !HoldsTokens(row) && IsDone(m) && m.role == Present("assistant") && GetUsage(m).None?
    ensures Charged(Some(row), chatId, Merged(Some(m), seq(k, i => BLANK))) == k
    decreases k
  {
    var patches := seq(k, i => BLANK);
    if k > 0 {
      assert Merge(m, BLANK) == m;
      assert patches[1..] == seq(k - 1, i => BLANK);
      ContentPatchesCharge(chatId, UpdatedRow(row, m), m, k - 1);
    }
  }
}
