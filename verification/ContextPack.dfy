/** Packing ranked facts and conflict receipts into a prompt block that never exceeds its token budget. */
module ContextPack {
  import opened Prelude
  import opened Context

  // ------------------------------------------------------------------
  // What the pack contains
  // ------------------------------------------------------------------

  datatype Entry =
    | Eligible(fact: Fact, content: string, truncated: bool)
    | Redacted(id: int, reason: string)
    | Conflict(receipt: Receipt)

  function Line(e: Entry): string {
    match e
    case Eligible(f, content, _) => f.prefix + content + "\n"
    case Redacted(_, _) => ""
    case Conflict(r) => r.summary + "\n"
  }

  function Render(entries: seq<Entry>): string {
    if entries == [] then "" else Render(entries[..|entries| - 1]) + Line(entries[|entries| - 1])
  }

  function Count(entries: seq<Entry>, kind: Entry -> bool): nat {
    if entries == [] then 0
    else Count(entries[..|entries| - 1], kind) + if kind(entries[|entries| - 1]) then 1 else 0
  }

  /** The packing loop's variables. */
  datatype Packing = Packing(
    markdown: string,
    selected: seq<Entry>,
    slots: set<Slot>,
    emitted: set<string>,
    omitted: nat,
    unsafe_: nat,
    promptUnsafe: nat)

  /** An entry that may be rendered as a claim: current, allowed in a prompt, not empty, and whole unless marked. */
  ghost predicate EntryOk(e: Entry) {
    e.Eligible? ==>
      && !e.fact.invalid && !e.fact.superseded && e.fact.conflictGroup.None?
      && e.fact.correction != Unreviewed && !e.fact.commands && e.content != ""
      && (!e.truncated ==> e.content == e.fact.content)
  }

  ghost predicate SlotHeld(entries: seq<Entry>, slot: Slot) {
    exists i :: 0 <= i < |entries| && entries[i].Eligible? && StateSlot(entries[i].fact) == Some(slot)
  }

  ghost predicate SlotTaken(entries: seq<Entry>, f: Fact) {
    exists i :: 0 <= i < |entries| && entries[i].Eligible? && SameSlot(entries[i].fact, f)
  }

  lemma SlotTakenIff(entries: seq<Entry>, f: Fact)
    ensures SlotTaken(entries, f) <==> StateSlot(f).Some? && SlotHeld(entries, StateSlot(f).value)
  {
    forall i | 0 <= i < |entries| && entries[i].Eligible?
      ensures SameSlot(entries[i].fact, f) <==> StateSlot(f).Some? && StateSlot(entries[i].fact) == StateSlot(f)
    {
      SameSlotIff(entries[i].fact, f);
    }
  }

  ghost predicate ConflictShown(entries: seq<Entry>, id: string) {
    exists i :: 0 <= i < |entries| && entries[i].Conflict? && entries[i].receipt.conflictId == id
  }

  ghost predicate Shown(entries: seq<Entry>, f: Fact) {
    exists i :: 0 <= i < |entries| && entries[i].Eligible? && entries[i].fact == f
  }

  ghost predicate SlotsOk(selected: seq<Entry>, slots: set<Slot>) {
    && (forall i :: 0 <= i < |selected| && selected[i].Eligible? && StateSlot(selected[i].fact).Some? ==>
          StateSlot(selected[i].fact).value in slots)
    && (forall slot :: slot in slots ==> SlotHeld(selected, slot))
    && (forall i, j :: 0 <= i < j < |selected| && selected[i].Eligible? && selected[j].Eligible? ==>
          StateSlot(selected[i].fact).None? || StateSlot(selected[i].fact) != StateSlot(selected[j].fact))
  }

  ghost predicate ConflictsOk(selected: seq<Entry>, emitted: set<string>) {
    && (forall i :: 0 <= i < |selected| && selected[i].Conflict? ==> selected[i].receipt.conflictId in emitted)
    && (forall i, j :: 0 <= i < j < |selected| && selected[i].Conflict? && selected[j].Conflict? ==>
          selected[i].receipt.conflictId != selected[j].receipt.conflictId)
    && (forall id :: id in emitted ==> ConflictShown(selected, id))
  }

  /** The text is the rendering of the entries and fits the budget; slots and conflicts are unique. */
  ghost predicate PackingOk(p: Packing, budget: nat) {
    && p.markdown == HEADER + Render(p.selected)
    && EstimateTokens(p.markdown) <= budget
    && (forall i :: 0 <= i < |p.selected| ==> EntryOk(p.selected[i]))
    && SlotsOk(p.selected, p.slots)
    && ConflictsOk(p.selected, p.emitted)
    && p.promptUnsafe == Count(p.selected, (e: Entry) => e.Redacted?)
  }

  /** Everything accounted for: rendered, redacted, unsafe, omitted, and conflict receipts emitted. */
  function Accounted(p: Packing): nat {
    Count(p.selected, (e: Entry) => e.Eligible?) + p.promptUnsafe + p.unsafe_ + p.omitted
    + Count(p.selected, (e: Entry) => e.Conflict?)
  }

  lemma RenderAppend(entries: seq<Entry>, e: Entry)
    ensures Render(entries + [e]) == Render(entries) + Line(e)
  {
    assert (entries + [e])[..|entries|] == entries;
  }

  lemma CountAppend(entries: seq<Entry>, e: Entry, kind: Entry -> bool)
    ensures Count(entries + [e], kind) == Count(entries, kind) + if kind(e) then 1 else 0
  {
    assert (entries + [e])[..|entries|] == entries;
  }

  lemma AppendKeepsSlots(selected: seq<Entry>, slots: set<Slot>, e: Entry)
    requires SlotsOk(selected, slots)
    requires e.Eligible? && StateSlot(e.fact).Some? ==> StateSlot(e.fact).value !in slots
    ensures SlotsOk(selected + [e],
      if e.Eligible? && StateSlot(e.fact).Some? then slots + {StateSlot(e.fact).value} else slots)
  {
    var more := selected + [e];
    assert more[|selected|] == e;
    forall slot | SlotHeld(selected, slot) ensures SlotHeld(more, slot) {
      var i :| 0 <= i < |selected| && selected[i].Eligible? && StateSlot(selected[i].fact) == Some(slot);
      assert more[i] == selected[i];
    }
  }

  lemma AppendKeepsConflicts(selected: seq<Entry>, emitted: set<string>, e: Entry)
    requires ConflictsOk(selected, emitted)
    requires e.Conflict? ==> e.receipt.conflictId !in emitted
    ensures ConflictsOk(selected + [e], if e.Conflict? then emitted + {e.receipt.conflictId} else emitted)
  {
    var more := selected + [e];
    assert more[|selected|] == e;
    forall id | ConflictShown(selected, id) ensures ConflictShown(more, id) {
      var i :| 0 <= i < |selected| && selected[i].Conflict? && selected[i].receipt.conflictId == id;
      assert more[i] == selected[i];
    }
  }

  /** The packing after an entry: its line appended, its slot or its conflict taken. */
  function Extended(p: Packing, e: Entry): Packing {
    p.(selected := p.selected + [e], markdown := p.markdown + Line(e),
       slots := if e.Eligible? && StateSlot(e.fact).Some? then p.slots + {StateSlot(e.fact).value} else p.slots,
       emitted := if e.Conflict? then p.emitted + {e.receipt.conflictId} else p.emitted,
       promptUnsafe := if e.Redacted? then p.promptUnsafe + 1 else p.promptUnsafe)
  }

  lemma ExtendKeepsPacking(p: Packing, budget: nat, e: Entry)
    requires PackingOk(p, budget) && EntryOk(e) && EstimateTokens(p.markdown + Line(e)) <= budget
    requires e.Eligible? && StateSlot(e.fact).Some? ==> StateSlot(e.fact).value !in p.slots
    requires e.Conflict? ==> e.receipt.conflictId !in p.emitted
    ensures PackingOk(Extended(p, e), budget) && Accounted(Extended(p, e)) == Accounted(p) + 1
  {
    AppendEntry(p, e);
    AppendKeepsSlots(p.selected, p.slots, e);
    AppendKeepsConflicts(p.selected, p.emitted, e);
  }

  lemma AppendEntry(p: Packing, e: Entry)
    ensures Render(p.selected + [e]) == Render(p.selected) + Line(e)
    ensures HEADER + Render(p.selected) + Line(e) == HEADER + Render(p.selected + [e])
    ensures Count(p.selected + [e], (x: Entry) => x.Eligible?)
      == Count(p.selected, (x: Entry) => x.Eligible?) + if e.Eligible? then 1 else 0
    ensures Count(p.selected + [e], (x: Entry) => x.Redacted?)
      == Count(p.selected, (x: Entry) => x.Redacted?) + if e.Redacted? then 1 else 0
    ensures Count(p.selected + [e], (x: Entry) => x.Conflict?)
      == Count(p.selected, (x: Entry) => x.Conflict?) + if e.Conflict? then 1 else 0
  {
    RenderAppend(p.selected, e);
    CountAppend(p.selected, e, (x: Entry) => x.Eligible?);
    CountAppend(p.selected, e, (x: Entry) => x.Redacted?);
    CountAppend(p.selected, e, (x: Entry) => x.Conflict?);
  }

  // ------------------------------------------------------------------
  // What each input adds
  // ------------------------------------------------------------------

  predicate CharsOk(maxChars: Option<nat>) {
    maxChars.Some? ==> maxChars.value >= |TRUNCATION_MARKER|
  }

  function Room(entries: seq<Entry>, budget: nat): int {
    budget - EstimateTokens(HEADER + Render(entries))
  }

  /** What is left for a fact's text once its line prefix is paid for. */
  function Allowance(entries: seq<Entry>, budget: nat, f: Fact): int {
    Room(entries, budget) - EstimateTokens(f.prefix) - 1
  }

  function Clipped(f: Fact, maxChars: Option<nat>): (string, bool)
    requires CharsOk(maxChars)
  {
    if maxChars.Some? then TruncateToChars(f.content, maxChars.value) else (f.content, false)
  }

  /** What the character limit leaves of a text: all of it if it is within, or a head of it and the marker. */
  ghost predicate IsClipped(content: string, maxChars: Option<nat>, text: string, clipped: bool)
    requires CharsOk(maxChars)
  {
    && (clipped <==> maxChars.Some? && maxChars.value < |content|)
    && text == if clipped then TrimRight(content[..maxChars.value - |TRUNCATION_MARKER|]) + TRUNCATION_MARKER
       else content
  }

  /** The conflict is shown, or its line does not fit behind the entries. */
  ghost predicate ReceiptSettled(entries: seq<Entry>, budget: nat, r: Receipt) {
    ConflictShown(entries, r.conflictId) || EstimateTokens(HEADER + Render(entries) + (r.summary + "\n")) > budget
  }

  /** A receipt is emitted if and only if its conflict is new and its line fits. */
  ghost function ReceiptAdds(entries: seq<Entry>, budget: nat, receipt: Option<Receipt>): Option<Entry> {
    if receipt.Some? && !ReceiptSettled(entries, budget, receipt.value) then Some(Conflict(receipt.value)) else None
  }

  function ClaimEntry(f: Fact, clipped: bool, fit: Option<(string, bool)>): Option<Entry> {
    if fit.None? then None else Some(Eligible(f, fit.value.0, clipped || fit.value.1))
  }

  /** A claim with a free slot adds what its allowance lets stand of its text. */
  ghost predicate ClaimAdds(entries: seq<Entry>, budget: nat, maxChars: Option<nat>, f: Fact, added: Option<Entry>)
    requires CharsOk(maxChars)
  {
    if SlotTaken(entries, f) then added == None
    else exists text, clipped, fit ::
      && IsClipped(f.content, maxChars, text, clipped) && ClaimText(text, Allowance(entries, budget, f), fit)
      && added == ClaimEntry(f, clipped, fit)
  }

  /** A row given as a conflict receipt, or a ranked fact. */
  datatype Input = Given(row: Fact) | Ranked(row: Fact)

  /** What an input adds behind the entries that are there at its turn. */
  ghost predicate Adds(entries: seq<Entry>, budget: nat, maxChars: Option<nat>, input: Input, added: Option<Entry>)
    requires CharsOk(maxChars)
  {
    match input
    case Given(f) => added == ReceiptAdds(entries, budget, ReceiptOf(f))
    case Ranked(f) =>
      if f.conflictGroup.Some? then added == ReceiptAdds(entries, budget, ReceiptOf(f))
      else if f.invalid || f.superseded then added == None
      else if f.correction == Unreviewed then added == Some(Redacted(f.id, "unreviewed_content"))
      else if f.commands then added == Some(Redacted(f.id, "instruction_shaped_content"))
      else ClaimAdds(entries, budget, maxChars, f, added)
  }

  lemma AddsOneThing(entries: seq<Entry>, budget: nat, maxChars: Option<nat>, input: Input, a: Option<Entry>,
                     b: Option<Entry>)
    requires CharsOk(maxChars) && Adds(entries, budget, maxChars, input, a) && Adds(entries, budget, maxChars, input, b)
    ensures a == b
  {
    var f := input.row;
    if input.Ranked? && SafeCandidate(f) && RejectionReason(f).None? {
      ClaimAddsOneThing(entries, budget, maxChars, f, a, b);
    }
  }

  lemma ClaimAddsOneThing(entries: seq<Entry>, budget: nat, maxChars: Option<nat>, f: Fact, a: Option<Entry>,
                          b: Option<Entry>)
    requires CharsOk(maxChars)
    requires ClaimAdds(entries, budget, maxChars, f, a) && ClaimAdds(entries, budget, maxChars, f, b)
    ensures a == b
  {
    var available := Allowance(entries, budget, f);
    if !SlotTaken(entries, f) {
      var s, c, x :| IsClipped(f.content, maxChars, s, c) && ClaimText(s, available, x) && a == ClaimEntry(f, c, x);
      var t, d, y :| IsClipped(f.content, maxChars, t, d) && ClaimText(t, available, y) && b == ClaimEntry(f, d, y);
      ClaimTextIsUnique(s, available, x, y);
    }
  }

  /** The entries are what the inputs add, each at its turn. */
  ghost predicate Packed(entries: seq<Entry>, inputs: seq<Input>, budget: nat, maxChars: Option<nat>)
    requires CharsOk(maxChars)
    decreases |inputs|, 0
  {
    if inputs == [] then entries == []
    else
      var init, last := inputs[..|inputs| - 1], inputs[|inputs| - 1];
      || PackedThen(entries, init, budget, maxChars, last, None)
      || (entries != [] && PackedThen(entries[..|entries| - 1], init, budget, maxChars, last,
        Some(entries[|entries| - 1])))
  }

  /** The last input adds this behind the entries of those before it. */
  ghost predicate PackedThen(before: seq<Entry>, init: seq<Input>, budget: nat, maxChars: Option<nat>, last: Input,
                             added: Option<Entry>)
    requires CharsOk(maxChars)
    decreases |init|, 1
  {
    Packed(before, init, budget, maxChars) && Adds(before, budget, maxChars, last, added)
  }

  /** The entries with what was added. */
  function With(entries: seq<Entry>, added: Option<Entry>): seq<Entry> {
    if added.None? then entries else entries + [added.value]
  }

  lemma PackedOneMore(entries: seq<Entry>, inputs: seq<Input>, budget: nat, maxChars: Option<nat>, input: Input,
                      added: Option<Entry>)
    requires CharsOk(maxChars) && Packed(entries, inputs, budget, maxChars)
      && Adds(entries, budget, maxChars, input, added)
    ensures Packed(With(entries, added), inputs + [input], budget, maxChars)
  {
    var all, more := inputs + [input], With(entries, added);
    assert all[..|all| - 1] == inputs;
    assert PackedThen(entries, inputs, budget, maxChars, input, added);
    assert added.Some? ==> more[..|more| - 1] == entries;
  }

  /** The entries before the last input, and what it added to them. */
  lemma PackedSplits(entries: seq<Entry>, inputs: seq<Input>, budget: nat, maxChars: Option<nat>)
    returns (before: seq<Entry>, added: Option<Entry>)
    requires CharsOk(maxChars) && inputs != [] && Packed(entries, inputs, budget, maxChars)
    ensures PackedThen(before, inputs[..|inputs| - 1], budget, maxChars, inputs[|inputs| - 1], added)
      && entries == With(before, added)
  {
    var init, last := inputs[..|inputs| - 1], inputs[|inputs| - 1];
    if PackedThen(entries, init, budget, maxChars, last, None) {
      before, added := entries, None;
    } else {
      before, added := entries[..|entries| - 1], Some(entries[|entries| - 1]);
    }
  }

  /** The inputs and the budget determine the entries. */
  lemma {:induction false} PackedIsUnique(a: seq<Entry>, b: seq<Entry>, inputs: seq<Input>, budget: nat,
                                          maxChars: Option<nat>)
    requires CharsOk(maxChars) && Packed(a, inputs, budget, maxChars) && Packed(b, inputs, budget, maxChars)
    ensures a == b
    decreases |inputs|
  {
    if inputs != [] {
      var x, e := PackedSplits(a, inputs, budget, maxChars);
      var y, f := PackedSplits(b, inputs, budget, maxChars);
      PackedIsUnique(x, y, inputs[..|inputs| - 1], budget, maxChars);
      AddsOneThing(x, budget, maxChars, inputs[|inputs| - 1], e, f);
    }
  }

  // ------------------------------------------------------------------
  // Nothing that still fits is left out
  // ------------------------------------------------------------------

  /** The claim is shown, another claim has its slot, or nothing worth showing of it fits behind the entries. */
  ghost predicate ClaimSettled(entries: seq<Entry>, budget: nat, maxChars: Option<nat>, f: Fact)
    requires CharsOk(maxChars)
  {
    || Shown(entries, f)
    || SlotTaken(entries, f)
    || (exists text, clipped ::
          IsClipped(f.content, maxChars, text, clipped) && NothingFits(text, Allowance(entries, budget, f)))
  }

  /** The entries do all for the input that the budget lets them. */
  ghost predicate Settled(entries: seq<Entry>, budget: nat, maxChars: Option<nat>, input: Input)
    requires CharsOk(maxChars)
  {
    var f := input.row;
    if input.Given? || f.conflictGroup.Some? then
      ReceiptOf(f).Some? ==> ReceiptSettled(entries, budget, ReceiptOf(f).value)
    else if f.invalid || f.superseded then true
    else if f.correction == Unreviewed then Redacted(f.id, "unreviewed_content") in entries
    else if f.commands then Redacted(f.id, "instruction_shaped_content") in entries
    else ClaimSettled(entries, budget, maxChars, f)
  }

  lemma {:induction false} RenderGrows(entries: seq<Entry>, more: seq<Entry>)
    requires entries <= more
    ensures |Render(entries)| <= |Render(more)|
    decreases |more|
  {
    if |entries| < |more| {
      RenderGrows(entries, more[..|more| - 1]);
    } else {
      assert entries == more;
    }
  }

  lemma ReceiptStaysSettled(entries: seq<Entry>, more: seq<Entry>, budget: nat, r: Receipt)
    requires entries <= more && ReceiptSettled(entries, budget, r)
    ensures ReceiptSettled(more, budget, r)
  {
    RenderGrows(entries, more);
    if ConflictShown(entries, r.conflictId) {
      var i :| 0 <= i < |entries| && entries[i].Conflict? && entries[i].receipt.conflictId == r.conflictId;
      assert more[i] == entries[i];
    }
  }

  lemma ClaimStaysSettled(entries: seq<Entry>, more: seq<Entry>, budget: nat, maxChars: Option<nat>, f: Fact)
    requires CharsOk(maxChars)
    requires entries <= more && ClaimSettled(entries, budget, maxChars, f)
    ensures ClaimSettled(more, budget, maxChars, f)
  {
    RenderGrows(entries, more);
    if Shown(entries, f) {
      var i :| 0 <= i < |entries| && entries[i].Eligible? && entries[i].fact == f;
      assert more[i] == entries[i];
    } else if SlotTaken(entries, f) {
      var i :| 0 <= i < |entries| && entries[i].Eligible? && SameSlot(entries[i].fact, f);
      assert more[i] == entries[i];
    }
  }

  /** Whatever is added later, a settled input stays settled: room only shrinks and entries are never withdrawn. */
  lemma StaysSettled(entries: seq<Entry>, more: seq<Entry>, budget: nat, maxChars: Option<nat>, input: Input)
    requires CharsOk(maxChars) && entries <= more
    ensures Settled(entries, budget, maxChars, input) ==> Settled(more, budget, maxChars, input)
  {
    var f := input.row;
    if Settled(entries, budget, maxChars, input) {
      if input.Given? || !SafeCandidate(f) {
        if ReceiptOf(f).Some? && (input.Given? || f.conflictGroup.Some?) {
          ReceiptStaysSettled(entries, more, budget, ReceiptOf(f).value);
        }
      } else if RejectionReason(f).None? {
        ClaimStaysSettled(entries, more, budget, maxChars, f);
      }
    }
  }

  lemma ClaimIsSettled(entries: seq<Entry>, budget: nat, maxChars: Option<nat>, f: Fact, added: Option<Entry>)
    requires CharsOk(maxChars) && ClaimAdds(entries, budget, maxChars, f, added)
    ensures ClaimSettled(With(entries, added), budget, maxChars, f)
  {
    if !SlotTaken(entries, f) {
      var available := Allowance(entries, budget, f);
      var text, clipped, fit :|
        IsClipped(f.content, maxChars, text, clipped) && ClaimText(text, available, fit)
          && added == ClaimEntry(f, clipped, fit);
      if fit.None? {
        NoneIffNothingFits(text, available, fit);
      } else {
        assert With(entries, added)[|entries|].fact == f;
      }
    }
  }

  /** An input is settled once its turn is over. */
  lemma TurnSettles(entries: seq<Entry>, budget: nat, maxChars: Option<nat>, input: Input, added: Option<Entry>)
    requires CharsOk(maxChars) && Adds(entries, budget, maxChars, input, added)
    ensures Settled(With(entries, added), budget, maxChars, input)
  {
    var f := input.row;
    if input.Ranked? && SafeCandidate(f) {
      if RejectionReason(f).None? {
        ClaimIsSettled(entries, budget, maxChars, f, added);
      } else {
        assert With(entries, added)[|entries|] == added.value;
      }
    }
  }

  /** In a finished pack every input is settled: nothing that would still fit was left out. */
  lemma {:induction false} PackedIsSettled(entries: seq<Entry>, inputs: seq<Input>, budget: nat, maxChars: Option<nat>,
                                           i: nat)
    requires CharsOk(maxChars) && Packed(entries, inputs, budget, maxChars) && i < |inputs|
    ensures Settled(entries, budget, maxChars, inputs[i])
    decreases |inputs|
  {
    var before, added := PackedSplits(entries, inputs, budget, maxChars);
    if i == |inputs| - 1 {
      TurnSettles(before, budget, maxChars, inputs[i], added);
    } else {
      PackedIsSettled(before, inputs[..|inputs| - 1], budget, maxChars, i);
      StaysSettled(before, entries, budget, maxChars, inputs[i]);
    }
  }

  // ------------------------------------------------------------------
  // The loops
  // ------------------------------------------------------------------

  /** The packing once an input added something, or was counted as omitted. */
  function Took(p: Packing, added: Option<Entry>): Packing {
    if added.None? then p.(omitted := p.omitted + 1) else Extended(p, added.value)
  }

  /** What the entries grew by. */
  function Added(before: seq<Entry>, after: seq<Entry>): Option<Entry> {
    if |after| > |before| then Some(after[|before|]) else None
  }

  /** `_emit_conflict_receipt` and its callers: emit it if it is new and fits, or count it as omitted. */
  method AddReceipt(p: Packing, budget: nat, receipt: Option<Receipt>) returns (q: Packing)
    requires PackingOk(p, budget)
    ensures PackingOk(q, budget) && Accounted(q) == Accounted(p) + 1
    ensures q == Took(p, ReceiptAdds(p.selected, budget, receipt))
  {
    if receipt.None? || receipt.value.conflictId in p.emitted {
      return p.(omitted := p.omitted + 1);
    }
    var r := receipt.value;
    assert ConflictsOk(p.selected, p.emitted);
    assert !ConflictShown(p.selected, r.conflictId);
    if EstimateTokens(p.markdown + (r.summary + "\n")) > budget {
      return p.(omitted := p.omitted + 1);
    }
    ExtendKeepsPacking(p, budget, Conflict(r));
    q := Extended(p, Conflict(r));
  }

  /** The line that a fact within its allowance adds always fits: the defensive branch of the loop is dead. */
  lemma LineFits(p: Packing, f: Fact, content: string, budget: nat)
    requires EstimateTokens(content) <= budget - EstimateTokens(p.markdown) - EstimateTokens(f.prefix) - 1
    ensures EstimateTokens(p.markdown + (f.prefix + content + "\n")) <= budget
  {
    EstimateIsSubadditive(p.markdown, f.prefix + content + "\n");
    EstimateIsSubadditive(f.prefix + content, "\n");
    EstimateIsSubadditive(f.prefix, content);
  }

  lemma ClaimKeepsPacking(p: Packing, budget: nat, f: Fact, clipped: bool, fit: Option<(string, bool)>)
    requires PackingOk(p, budget) && SafeCandidate(f) && RejectionReason(f).None?
    requires StateSlot(f).Some? ==> StateSlot(f).value !in p.slots
    requires fit.Some? ==>
      && EstimateTokens(fit.value.0) <= Allowance(p.selected, budget, f) && fit.value.0 != ""
      && (!clipped && !fit.value.1 ==> fit.value.0 == f.content)
    ensures var q := Took(p, ClaimEntry(f, clipped, fit)); PackingOk(q, budget) && Accounted(q) == Accounted(p) + 1
  {
    if fit.Some? {
      LineFits(p, f, fit.value.0, budget);
      ExtendKeepsPacking(p, budget, Eligible(f, fit.value.0, clipped || fit.value.1));
    }
  }

  /** A current fact that may stand in a prompt. */
  method AddClaim(p: Packing, budget: nat, maxChars: Option<nat>, f: Fact)
    returns (q: Packing, ghost added: Option<Entry>)
    requires PackingOk(p, budget) && SafeCandidate(f) && RejectionReason(f).None? && CharsOk(maxChars)
    ensures PackingOk(q, budget) && Accounted(q) == Accounted(p) + 1
    ensures ClaimAdds(p.selected, budget, maxChars, f, added) && q == Took(p, added)
  {
    var slot := StateSlot(f);
    SlotTakenIff(p.selected, f);
    assert SlotsOk(p.selected, p.slots);
    if slot.Some? && slot.value in p.slots {
      return p.(omitted := p.omitted + 1), None;
    }
    var available := budget - EstimateTokens(p.markdown) - EstimateTokens(f.prefix) - 1;
    assert available == Allowance(p.selected, budget, f);
    var (text, clipped) := Clipped(f, maxChars);
    var fit := FitClaim(text, available);
    ClaimKeepsPacking(p, budget, f, clipped, fit);
    added := ClaimEntry(f, clipped, fit);
    q := Took(p, ClaimEntry(f, clipped, fit));
  }

  /** The inputs one fact accounts for: itself, and the receipt of its conflict. */
  function Weight(f: Fact): nat {
    if f.conflictGroup.Some? then 2 else 1
  }

  /** The body of the loop over the ranked facts. */
  method AddFact(p: Packing, budget: nat, maxChars: Option<nat>, f: Fact) returns (q: Packing)
    requires PackingOk(p, budget) && CharsOk(maxChars)
    ensures PackingOk(q, budget) && Accounted(q) == Accounted(p) + Weight(f)
    ensures q.unsafe_ == p.unsafe_ + if SafeCandidate(f) then 0 else 1
    ensures var added := Added(p.selected, q.selected);
      q.selected == With(p.selected, added) && Adds(p.selected, budget, maxChars, Ranked(f), added)
  {
    if !SafeCandidate(f) {
      q := p.(unsafe_ := p.unsafe_ + 1);
      if f.conflictGroup.Some? {
        q := AddReceipt(q, budget, ReceiptOf(f));
      }
      return;
    }
    var reason := RejectionReason(f);
    if reason.Some? {
      assert p.markdown + "" == p.markdown;
      ExtendKeepsPacking(p, budget, Redacted(f.id, reason.value));
      return Extended(p, Redacted(f.id, reason.value));
    }
    ghost var added;
    q, added := AddClaim(p, budget, maxChars, f);
    assert Added(p.selected, q.selected) == added;
  }

  /** How many of the facts are superseded, invalidated or in conflict. */
  function UnsafeCount(facts: seq<Fact>): nat {
    if facts == [] then 0 else UnsafeCount(facts[..|facts| - 1]) + if SafeCandidate(facts[|facts| - 1]) then 0 else 1
  }

  function TotalWeight(facts: seq<Fact>): nat {
    if facts == [] then 0 else TotalWeight(facts[..|facts| - 1]) + Weight(facts[|facts| - 1])
  }

  function ReceiptCount(receipts: seq<Fact>): nat {
    if receipts == [] then 0
    else ReceiptCount(receipts[..|receipts| - 1]) + if ReceiptOf(receipts[|receipts| - 1]).Some? then 1 else 0
  }

  lemma CountsOneMore(facts: seq<Fact>, n: nat)
    requires n < |facts|
    ensures TotalWeight(facts[..n + 1]) == TotalWeight(facts[..n]) + Weight(facts[n])
    ensures UnsafeCount(facts[..n + 1]) == UnsafeCount(facts[..n]) + if SafeCandidate(facts[n]) then 0 else 1
    ensures ReceiptCount(facts[..n + 1]) == ReceiptCount(facts[..n]) + if ReceiptOf(facts[n]).Some? then 1 else 0
  {
    assert facts[..n + 1][..n] == facts[..n];
  }

  /** The receipts and then the facts, as inputs. */
  function Inputs(receipts: seq<Fact>, ranked: seq<Fact>): seq<Input> {
    seq(|receipts|, i requires 0 <= i < |receipts| => Given(receipts[i]))
    + seq(|ranked|, i requires 0 <= i < |ranked| => Ranked(ranked[i]))
  }

  lemma OneMoreReceipt(receipts: seq<Fact>, n: nat)
    requires n < |receipts|
    ensures Inputs(receipts[..n + 1], []) == Inputs(receipts[..n], []) + [Given(receipts[n])]
  {
  }

  lemma OneMoreFact(receipts: seq<Fact>, facts: seq<Fact>, n: nat)
    requires n < |facts|
    ensures Inputs(receipts, facts[..n + 1]) == Inputs(receipts, facts[..n]) + [Ranked(facts[n])]
  {
  }

  /** The body of the loop over the given conflict receipts: a row that names no conflict is passed over. */
  method AddGiven(p: Packing, budget: nat, maxChars: Option<nat>, f: Fact) returns (q: Packing)
    requires PackingOk(p, budget) && CharsOk(maxChars)
    ensures PackingOk(q, budget) && Accounted(q) == Accounted(p) + if ReceiptOf(f).Some? then 1 else 0
    ensures q.unsafe_ == p.unsafe_
    ensures var added := Added(p.selected, q.selected);
      q.selected == With(p.selected, added) && Adds(p.selected, budget, maxChars, Given(f), added)
  {
    q := p;
    var receipt := ReceiptOf(f);
    if receipt.Some? {
      q := AddReceipt(q, budget, receipt);
    }
  }

  /** The loop over the given conflict receipts. */
  method AddReceipts(p: Packing, budget: nat, maxChars: Option<nat>, receipts: seq<Fact>) returns (q: Packing)
    requires PackingOk(p, budget) && CharsOk(maxChars) && p.selected == []
    ensures PackingOk(q, budget) && Accounted(q) == Accounted(p) + ReceiptCount(receipts) && q.unsafe_ == p.unsafe_
    ensures Packed(q.selected, Inputs(receipts, []), budget, maxChars)
  {
    q := p;
    for n := 0 to |receipts|
      invariant PackingOk(q, budget) && Accounted(q) == Accounted(p) + ReceiptCount(receipts[..n])
        && q.unsafe_ == p.unsafe_
      invariant Packed(q.selected, Inputs(receipts[..n], []), budget, maxChars)
    {
      CountsOneMore(receipts, n);
      OneMoreReceipt(receipts, n);
      ghost var before := q.selected;
      q := AddGiven(q, budget, maxChars, receipts[n]);
      PackedOneMore(before, Inputs(receipts[..n], []), budget, maxChars, Given(receipts[n]), Added(before, q.selected));
    }
    assert receipts[..|receipts|] == receipts;
  }

  /** The loop over the ranked facts. */
  method AddFacts(p: Packing, budget: nat, maxChars: Option<nat>, facts: seq<Fact>, ghost receipts: seq<Fact>)
    returns (q: Packing)
    requires PackingOk(p, budget) && CharsOk(maxChars) && Packed(p.selected, Inputs(receipts, []), budget, maxChars)
    ensures PackingOk(q, budget) && Accounted(q) == Accounted(p) + TotalWeight(facts)
    ensures q.unsafe_ == p.unsafe_ + UnsafeCount(facts)
    ensures Packed(q.selected, Inputs(receipts, facts), budget, maxChars)
  {
    q := p;
    assert facts[..0] == [];
    for n := 0 to |facts|
      invariant PackingOk(q, budget) && Accounted(q) == Accounted(p) + TotalWeight(facts[..n])
      invariant q.unsafe_ == p.unsafe_ + UnsafeCount(facts[..n])
      invariant Packed(q.selected, Inputs(receipts, facts[..n]), budget, maxChars)
    {
      CountsOneMore(facts, n);
      OneMoreFact(receipts, facts, n);
      ghost var before := q.selected;
      q := AddFact(q, budget, maxChars, facts[n]);
      PackedOneMore(before, Inputs(receipts, facts[..n]), budget, maxChars, Ranked(facts[n]),
        Added(before, q.selected));
    }
    assert facts[..|facts|] == facts;
  }

  datatype Pack = Pack(markdown: string, entries: seq<Entry>, abstained: bool, budget: nat, used: nat, omitted: nat,
    unsafe_: nat, promptUnsafe: nat)

  ghost predicate HasClaim(entries: seq<Entry>) {
    exists i :: 0 <= i < |entries| && entries[i].Eligible?
  }

  ghost predicate HasConflict(entries: seq<Entry>) {
    exists i :: 0 <= i < |entries| && entries[i].Conflict?
  }

  /** What a caller can rely on in every pack. */
  ghost predicate PackOk(pack: Pack) {
    && pack.used == EstimateTokens(pack.markdown) && pack.used <= pack.budget
    && (pack.markdown == "" || pack.markdown == HEADER + Render(pack.entries))
    && (pack.abstained <==> !HasClaim(pack.entries))
    && (pack.markdown == "" ==> pack.abstained)
    && (forall i :: 0 <= i < |pack.entries| ==> EntryOk(pack.entries[i]))
    && (forall i, j :: 0 <= i < j < |pack.entries| && pack.entries[i].Eligible? && pack.entries[j].Eligible? ==>
          !SameSlot(pack.entries[i].fact, pack.entries[j].fact))
    && (exists emitted :: ConflictsOk(pack.entries, emitted))
  }

  /** Rendered + redacted + unsafe + omitted + emitted receipts. */
  function Tally(pack: Pack): nat {
    Count(pack.entries, (e: Entry) => e.Eligible?) + pack.promptUnsafe + pack.unsafe_ + pack.omitted
    + Count(pack.entries, (e: Entry) => e.Conflict?)
  }

  method Finish(p: Packing, budget: nat) returns (pack: Pack)
    requires PackingOk(p, budget)
    ensures PackOk(pack) && pack.budget == budget && pack.entries == p.selected && Tally(pack) == Accounted(p)
    ensures pack.unsafe_ == p.unsafe_ && pack.promptUnsafe == Count(pack.entries, (e: Entry) => e.Redacted?)
    ensures pack.markdown == "" <==> !HasClaim(pack.entries) && !HasConflict(pack.entries)
  {
    var claims := set i | 0 <= i < |p.selected| && p.selected[i].Eligible?;
    assert claims == {} <==> !HasClaim(p.selected) by {
      assert forall i :: 0 <= i < |p.selected| && p.selected[i].Eligible? ==> i in claims;
      if claims != {} {
        var i :| i in claims;
      }
    }
    assert SlotsOk(p.selected, p.slots) && ConflictsOk(p.selected, p.emitted);
    assert p.emitted == {} <==> !HasConflict(p.selected) by {
      if p.emitted != {} {
        var id :| id in p.emitted;
        assert ConflictShown(p.selected, id);
      }
    }
    if claims == {} && p.emitted == {} {
      return Pack("", p.selected, true, budget, 0, p.omitted, p.unsafe_, p.promptUnsafe);
    }
    return Pack(p.markdown, p.selected, claims == {}, budget, EstimateTokens(p.markdown), p.omitted, p.unsafe_,
      p.promptUnsafe);
  }

  predicate ConfigOk(budget: int, maxChars: Option<int>, maxFacts: Option<int>, mmrLambda: real) {
    && budget > 0
    && (maxChars.Some? ==> maxChars.value >= |TRUNCATION_MARKER|)
    && (maxFacts.Some? ==> maxFacts.value >= 1)
    && 0.0 <= mmrLambda <= 1.0
  }

  /** What a pack of these receipts and ranked facts contains. */
  ghost predicate Complete(pack: Pack, maxChars: Option<nat>, ranked: seq<Fact>, receipts: seq<Fact>)
    requires CharsOk(maxChars)
  {
    && Packed(pack.entries, Inputs(receipts, ranked), pack.budget, maxChars)
    && (pack.markdown == "" <==> !HasClaim(pack.entries) && !HasConflict(pack.entries))
    && pack.promptUnsafe == Count(pack.entries, (e: Entry) => e.Redacted?)
    && pack.unsafe_ == UnsafeCount(ranked)
  }

  /** The packing once the header fits. */
  method PackRanked(total: nat, ranked: seq<Fact>, budget: nat, maxChars: Option<nat>, receipts: seq<Fact>)
    returns (pack: Pack)
    requires EstimateTokens(HEADER) <= budget && |ranked| <= total && CharsOk(maxChars)
    ensures PackOk(pack) && pack.budget == budget
    ensures Tally(pack) == total - |ranked| + TotalWeight(ranked) + ReceiptCount(receipts)
    ensures Complete(pack, maxChars, ranked, receipts)
  {
    var p := Packing(HEADER, [], {}, {}, 0, 0, 0);
    assert HEADER + Render([]) == HEADER;
    p := AddReceipts(p, budget, maxChars, receipts);
    p := p.(omitted := p.omitted + (total - |ranked|));
    p := AddFacts(p, budget, maxChars, ranked, receipts);
    pack := Finish(p, budget);
  }

  /** What `pack_context` must return: within budget, complete, and every input accounted for. */
  ghost predicate IsPack(pack: Pack, facts: seq<Fact>, budget: nat, maxChars: Option<nat>, maxFacts: Option<int>,
                         mmrLambda: real, sim: Similarity, receipts: seq<Fact>, ranked: seq<Fact>)
    requires CharsOk(maxChars)
  {
    && PackOk(pack) && pack.budget == budget
    && if EstimateTokens(HEADER) > budget then pack == Pack("", [], true, budget, 0, |facts|, 0, 0)
       else
         && IsRanking(facts, maxFacts, sim, mmrLambda, ranked)
         && Complete(pack, maxChars, ranked, receipts)
         && Tally(pack) == |facts| - |ranked| + TotalWeight(ranked) + ReceiptCount(receipts)
  }

  /** `pack_context`; None is the error for a bad configuration. `ranked` is the order in which the facts were tried. */
  method PackContext(facts: seq<Fact>, budget: int, maxChars: Option<int>, maxFacts: Option<int>, mmrLambda: real,
                     sim: Similarity, receipts: seq<Fact>)
    returns (r: Option<Pack>, ghost ranked: seq<Fact>)
    ensures r.None? <==>
      || budget <= 0 || (maxChars.Some? && maxChars.value < |TRUNCATION_MARKER|)
      || (maxFacts.Some? && maxFacts.value < 1) || mmrLambda < 0.0 || 1.0 < mmrLambda
    ensures r.Some? ==>
      IsPack(r.value, facts, budget, if maxChars.Some? then Some(maxChars.value) else None, maxFacts, mmrLambda, sim,
        receipts, ranked)
  {
    ranked := [];
    if !ConfigOk(budget, maxChars, maxFacts, mmrLambda) {
      return None, [];
    }
    if EstimateTokens(HEADER) > budget {
      var empty := Pack("", [], true, budget, 0, |facts|, 0, 0);
      assert SlotsOk([], {}) && ConflictsOk([], {});
      return Some(empty), [];
    }
    var order := RankFacts(facts, maxFacts, mmrLambda, sim);
    var chars: Option<nat> := if maxChars.Some? then Some(maxChars.value) else None;
    var pack := PackRanked(|facts|, order, budget, chars, receipts);
    return Some(pack), order;
  }

  lemma RankingIsUnique(facts: seq<Fact>, maxFacts: Option<int>, sim: Similarity, mmrLambda: real, a: seq<Fact>,
                        b: seq<Fact>)
    requires IsRanking(facts, maxFacts, sim, mmrLambda, a) && IsRanking(facts, maxFacts, sim, mmrLambda, b)
    ensures a == b
  {
    var x :| Selected(facts, maxFacts, sim, mmrLambda, x) && ReviewedLead(x, a);
    var y :| Selected(facts, maxFacts, sim, mmrLambda, y) && ReviewedLead(y, b);
    SelectionIsUnique(facts, maxFacts, sim, mmrLambda, x, y);
    ReviewedLeadIff(x, a);
    ReviewedLeadIff(y, b);
  }

  lemma CompleteIsUnique(a: Pack, b: Pack, maxChars: Option<nat>, ranked: seq<Fact>, receipts: seq<Fact>)
    requires CharsOk(maxChars) && PackOk(a) && PackOk(b) && a.budget == b.budget && Tally(a) == Tally(b)
    requires Complete(a, maxChars, ranked, receipts) && Complete(b, maxChars, ranked, receipts)
    ensures a == b
  {
    PackedIsUnique(a.entries, b.entries, Inputs(receipts, ranked), a.budget, maxChars);
  }

  /** The inputs determine the pack, down to its text and every count. */
  lemma PackIsUnique(a: Pack, b: Pack, facts: seq<Fact>, budget: nat, maxChars: Option<nat>, maxFacts: Option<int>,
                     mmrLambda: real, sim: Similarity, receipts: seq<Fact>, ranked: seq<Fact>, reranked: seq<Fact>)
    requires CharsOk(maxChars)
    requires IsPack(a, facts, budget, maxChars, maxFacts, mmrLambda, sim, receipts, ranked)
    requires IsPack(b, facts, budget, maxChars, maxFacts, mmrLambda, sim, receipts, reranked)
    ensures a == b
  {
    if EstimateTokens(HEADER) <= budget {
      RankingIsUnique(facts, maxFacts, sim, mmrLambda, ranked, reranked);
      CompleteIsUnique(a, b, maxChars, ranked, receipts);
    }
  }
}
