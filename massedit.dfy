/**
 * Mass editing (MassEdit.jsx): the consultant selects visits from the day list, fills in one
 * edit per selected visit and then either asks André for the change or reports it as done.
 * A store change ("JP" mode) stores one store-change request per visit for the day list to
 * show; a time change ("Horário" mode) stores one time-change request per visit.
 */
module MassEdit {
  import opened Wrappers
  import opened Text
  import opened Seqs
  import opened Ordered
  import opened Storage
  import opened Home
  import opened WhatsApp

  /** The `mode` property; the day list opens this screen only with `'jp'` or `'time'`. */
  datatype Mode = JP | Time

  /** The edit form of one selected visit. */
  datatype Edit = Edit(newStore: string, visitType: string, reason: string, newStartTime: string, newEndTime: string)

  datatype Field = NewStore | VisitType | Reason | NewStartTime | NewEndTime

  function Get(e: Edit, f: Field): string {
    match f
    case NewStore => e.newStore
    case VisitType => e.visitType
    case Reason => e.reason
    case NewStartTime => e.newStartTime
    case NewEndTime => e.newEndTime
  }

  /** `{ ...edit, [field]: value }`: the one field takes the value and the others are kept. */
  function SetField(e: Edit, f: Field, value: string): (r: Edit)
    ensures Get(r, f) == value
    ensures forall g :: g != f ==> Get(r, g) == Get(e, g)
  {
    match f
    case NewStore => e.(newStore := value)
    case VisitType => e.(visitType := value)
    case Reason => e.(reason := value)
    case NewStartTime => e.(newStartTime := value)
    case NewEndTime => e.(newEndTime := value)
  }

  /** A newly selected visit starts with its own times and every other field empty. */
  function FreshEdit(v: Visit): Edit {
    Edit("", "", "", v.checkIn, v.checkOut)
  }

  const Blank: Edit := Edit("", "", "", "", "")

  // ---------------------------------------------------------------------------------------------
  // Flags remembering that a mass request or execution was already sent

  function RequestFlag(mode: Mode): string {
    if mode == Time then "hasPendingMassTimeRequest" else "hasPendingMassRequest"
  }

  function ExecutionFlag(mode: Mode): string {
    if mode == Time then "hasPendingMassTimeExecution" else "hasPendingMassExecution"
  }

  /** The four flags are four different keys, one per mode and kind of message. */
  lemma FlagsDistinct(m1: Mode, m2: Mode)
    ensures RequestFlag(m1) != ExecutionFlag(m2)
    ensures RequestFlag(m1) == RequestFlag(m2) <==> m1 == m2
    ensures ExecutionFlag(m1) == ExecutionFlag(m2) <==> m1 == m2
  {
    assert |"hasPendingMassRequest"| == 21 && |"hasPendingMassTimeRequest"| == 25;
    assert |"hasPendingMassExecution"| == 23 && |"hasPendingMassTimeExecution"| == 27;
  }

  /** No flag is the key of a pending request, so raising a flag never overwrites a request. */
  lemma FlagNotRequestKey(m: Mode, date: string, store: string)
    ensures RequestFlag(m) != JPKey(date, store) && RequestFlag(m) != TimeKey(date, store)
    ensures ExecutionFlag(m) != JPKey(date, store) && ExecutionFlag(m) != TimeKey(date, store)
  {
    assert JPKey(date, store)[0] == 'p' && TimeKey(date, store)[0] == 'p';
    assert RequestFlag(m)[0] == 'h' && ExecutionFlag(m)[0] == 'h';
  }

  // ---------------------------------------------------------------------------------------------
  // Visit identifiers

  /** `${group.dateStr}-${vIdx}`: a visit is named by its date and its position on that date. */
  function UniqueId(dateStr: string, vIdx: nat): string {
    dateStr + "-" + NatToString(vIdx)
  }

  /** Different visits have different identifiers, whatever characters the dates hold. */
  lemma UniqueIdInjective(d1: string, i1: nat, d2: string, i2: nat)
    requires UniqueId(d1, i1) == UniqueId(d2, i2)
    ensures d1 == d2 && i1 == i2
  {
    var s1 := NatToString(i1);
    var s2 := NatToString(i2);
    var id := UniqueId(d1, i1);
    assert id == UniqueId(d2, i2);
    assert id[|d1|] == '-' && id[|d2|] == '-';
    if |s1| != |s2| {
      assert false;
    }
    assert d1 == id[..|d1|] == d2;
    assert s1 == id[|d1| + 1..] == s2;
    NatToStringInjective(i1, i2);
  }

  // ---------------------------------------------------------------------------------------------
  // The selected visits, in day-list order

  /** A selected visit that has an edit, with its identifier and its date. */
  datatype Entry = Entry(id: string, dateStr: string, visit: Visit, edit: Edit)

  /** What the visit at position `i` of date `d` contributes: itself when selected and edited. */
  function EntryAt(d: string, i: nat, v: FlaggedVisit, sel: seq<string>, edits: map<string, Edit>): seq<Entry> {
    var id := UniqueId(d, i);
    if id in sel && id in edits then [Entry(id, d, v.visit, edits[id])] else []
  }

  /** The inner `group.visits.forEach((visit, vIdx) => ...)`. */
  function GroupEntries(d: string, vs: seq<FlaggedVisit>, sel: seq<string>, edits: map<string, Edit>): seq<Entry> {
    if vs == [] then []
    else GroupEntries(d, vs[..|vs| - 1], sel, edits) + EntryAt(d, |vs| - 1, vs[|vs| - 1], sel, edits)
  }

  /** The outer `visits.forEach((group) => ...)`. */
  function Entries(groups: seq<DateGroup>, sel: seq<string>, edits: map<string, Edit>): seq<Entry> {
    if groups == [] then []
    else
      var g := groups[|groups| - 1];
      Entries(groups[..|groups| - 1], sel, edits) + GroupEntries(g.dateStr, g.visits, sel, edits)
  }

  lemma GroupEntriesPrefix(d: string, vs: seq<FlaggedVisit>, i: nat, sel: seq<string>, edits: map<string, Edit>)
    requires i < |vs|
    ensures GroupEntries(d, vs[..i + 1], sel, edits) == GroupEntries(d, vs[..i], sel, edits) + EntryAt(d, i, vs[i], sel, edits)
  {
    assert vs[..i + 1][..i] == vs[..i];
  }

  lemma EntriesPrefix(groups: seq<DateGroup>, g: nat, sel: seq<string>, edits: map<string, Edit>)
    requires g < |groups|
    ensures Entries(groups[..g + 1], sel, edits)
         == Entries(groups[..g], sel, edits) + GroupEntries(groups[g].dateStr, groups[g].visits, sel, edits)
  {
    assert groups[..g + 1][..g] == groups[..g];
  }

  /** `en` is what the visit at position `i` of date `d` contributes. */
  predicate PicksIn(d: string, vs: seq<FlaggedVisit>, sel: seq<string>, edits: map<string, Edit>, i: int, en: Entry) {
    0 <= i < |vs| &&
    var id := UniqueId(d, i);
    id in sel && id in edits && en == Entry(id, d, vs[i].visit, edits[id])
  }

  predicate Picks(groups: seq<DateGroup>, sel: seq<string>, edits: map<string, Edit>, g: int, i: int, en: Entry) {
    0 <= g < |groups| && PicksIn(groups[g].dateStr, groups[g].visits, sel, edits, i, en)
  }

  /** Every entry of a date is what one of its visits contributes. */
  lemma {:induction false} GroupEntriesPicked(d: string, vs: seq<FlaggedVisit>, sel: seq<string>, edits: map<string, Edit>, en: Entry)
    requires en in GroupEntries(d, vs, sel, edits)
    ensures exists i :: PicksIn(d, vs, sel, edits, i, en)
  {
    var n := |vs| - 1;
    GroupEntriesPrefix(d, vs, n, sel, edits);
    assert vs[..n + 1] == vs;
    if en in GroupEntries(d, vs[..n], sel, edits) {
      GroupEntriesPicked(d, vs[..n], sel, edits, en);
      var i :| PicksIn(d, vs[..n], sel, edits, i, en);
      assert vs[..n][i] == vs[i];
      assert PicksIn(d, vs, sel, edits, i, en);
    } else {
      assert PicksIn(d, vs, sel, edits, n, en);
    }
  }

  /** What a visit of a date contributes is among that date's entries. */
  lemma {:induction false} GroupEntriesPicks(d: string, vs: seq<FlaggedVisit>, sel: seq<string>, edits: map<string, Edit>, i: int, en: Entry)
    requires PicksIn(d, vs, sel, edits, i, en)
    ensures en in GroupEntries(d, vs, sel, edits)
  {
    var n := |vs| - 1;
    GroupEntriesPrefix(d, vs, n, sel, edits);
    assert vs[..n + 1] == vs;
    if i < n {
      assert vs[..n][i] == vs[i];
      GroupEntriesPicks(d, vs[..n], sel, edits, i, en);
    }
  }

  lemma GroupEntriesMembers(d: string, vs: seq<FlaggedVisit>, sel: seq<string>, edits: map<string, Edit>, en: Entry)
    ensures en in GroupEntries(d, vs, sel, edits) <==> exists i :: PicksIn(d, vs, sel, edits, i, en)
  {
    if en in GroupEntries(d, vs, sel, edits) {
      GroupEntriesPicked(d, vs, sel, edits, en);
    }
    if exists i :: PicksIn(d, vs, sel, edits, i, en) {
      var i :| PicksIn(d, vs, sel, edits, i, en);
      GroupEntriesPicks(d, vs, sel, edits, i, en);
    }
  }

  /**
   * The entries are exactly the visits of the day list whose identifier is selected and has an
   * edit, each with that edit.
   */
  lemma EntriesMembers(groups: seq<DateGroup>, sel: seq<string>, edits: map<string, Edit>, en: Entry)
    ensures en in Entries(groups, sel, edits) <==> exists g, i :: Picks(groups, sel, edits, g, i, en)
  {
    if en in Entries(groups, sel, edits) {
      var g, i := EntriesPicked(groups, sel, edits, en);
    }
    if exists g, i :: Picks(groups, sel, edits, g, i, en) {
      var g, i :| Picks(groups, sel, edits, g, i, en);
      EntriesPicks(groups, sel, edits, g, i, en);
    }
  }

  /** Every entry is what some visit of some date contributes. */
  lemma {:induction false} EntriesPicked(groups: seq<DateGroup>, sel: seq<string>, edits: map<string, Edit>, en: Entry) returns (g: nat, i: nat)
    requires en in Entries(groups, sel, edits)
    ensures Picks(groups, sel, edits, g, i, en)
  {
    var n := |groups| - 1;
    var last := groups[n];
    if en in Entries(groups[..n], sel, edits) {
      g, i := EntriesPicked(groups[..n], sel, edits, en);
      assert groups[..n][g] == groups[g];
    } else {
      GroupEntriesPicked(last.dateStr, last.visits, sel, edits, en);
      var j :| PicksIn(last.dateStr, last.visits, sel, edits, j, en);
      g, i := n, j;
    }
  }

  /** What a visit of a date contributes is among the entries. */
  lemma {:induction false} EntriesPicks(groups: seq<DateGroup>, sel: seq<string>, edits: map<string, Edit>, g: int, i: int, en: Entry)
    requires Picks(groups, sel, edits, g, i, en)
    ensures en in Entries(groups, sel, edits)
  {
    var n := |groups| - 1;
    var last := groups[n];
    if g < n {
      assert groups[..n][g] == groups[g];
      EntriesPicks(groups[..n], sel, edits, g, i, en);
    } else {
      GroupEntriesPicks(last.dateStr, last.visits, sel, edits, i, en);
    }
  }

  /** Every entry is selected and carries the edit stored under its identifier. */
  lemma EntryFacts(groups: seq<DateGroup>, sel: seq<string>, edits: map<string, Edit>, en: Entry)
    requires en in Entries(groups, sel, edits)
    ensures en.id in sel && en.id in edits && en.edit == edits[en.id]
  {
    EntriesMembers(groups, sel, edits, en);
    var g, i :| Picks(groups, sel, edits, g, i, en);
  }

  // ---------------------------------------------------------------------------------------------
  // `isReadyToSubmit`

  predicate Complete(mode: Mode, e: Edit) {
    match mode
    case JP => e.newStore != "" && e.visitType != "" && e.reason != "" && e.newStartTime != "" && e.newEndTime != ""
    case Time => e.newStartTime != "" && e.newEndTime != "" && e.reason != ""
  }

  predicate Incomplete(mode: Mode, edits: map<string, Edit>, id: string) {
    id !in edits || !Complete(mode, edits[id])
  }

  /** `ids.some(id => ...)` with the test of `isReadyToSubmit`. */
  function AnyIncomplete(mode: Mode, ids: seq<string>, edits: map<string, Edit>): bool {
    if ids == [] then false else Incomplete(mode, edits, ids[0]) || AnyIncomplete(mode, ids[1..], edits)
  }

  function Ready(mode: Mode, sel: seq<string>, edits: map<string, Edit>): bool {
    |sel| > 0 && !AnyIncomplete(mode, sel, edits)
  }

  lemma {:induction false} AnyIncompleteMeans(mode: Mode, ids: seq<string>, edits: map<string, Edit>)
    ensures AnyIncomplete(mode, ids, edits) <==> exists i :: 0 <= i < |ids| && Incomplete(mode, edits, ids[i])
  {
    if ids != [] {
      AnyIncompleteMeans(mode, ids[1..], edits);
      if exists i :: 0 <= i < |ids[1..]| && Incomplete(mode, edits, ids[1..][i]) {
        var i :| 0 <= i < |ids[1..]| && Incomplete(mode, edits, ids[1..][i]);
        assert ids[i + 1] == ids[1..][i];
      }
      if exists i :: 0 <= i < |ids| && Incomplete(mode, edits, ids[i]) {
        var i :| 0 <= i < |ids| && Incomplete(mode, edits, ids[i]);
        if i > 0 {
          assert ids[1..][i - 1] == ids[i];
        }
      }
    }
  }

  /**
   * The selection is ready exactly when it is not empty and every selected visit has an edit
   * with all the fields its mode needs filled in.
   */
  lemma ReadyMeans(mode: Mode, sel: seq<string>, edits: map<string, Edit>)
    ensures Ready(mode, sel, edits) <==>
      |sel| > 0 && forall i :: 0 <= i < |sel| ==> sel[i] in edits && Complete(mode, edits[sel[i]])
  {
    AnyIncompleteMeans(mode, sel, edits);
  }

  /** When the selection is ready, every entry the messages list has a complete edit. */
  lemma ReadyEntries(mode: Mode, groups: seq<DateGroup>, sel: seq<string>, edits: map<string, Edit>)
    requires Ready(mode, sel, edits)
    ensures forall en :: en in Entries(groups, sel, edits) ==> Complete(mode, en.edit)
  {
    ReadyMeans(mode, sel, edits);
    forall en | en in Entries(groups, sel, edits) ensures Complete(mode, en.edit) {
      EntryFacts(groups, sel, edits, en);
      var k :| 0 <= k < |sel| && sel[k] == en.id;
    }
  }

  // ---------------------------------------------------------------------------------------------
  // `buildMessage`

  const Arrow: string := "\U{27A1}\U{FE0F}"
  const Tag: string := "\U{1F3F7}\U{FE0F}"
  const Clock: string := "\U{1F552}"
  const Memo: string := "\U{1F4DD}"
  const NoType: string := "(SELECIONE O TIPO)"
  const NoReason: string := "N\U{00E3}o informado"

  function Header(mode: Mode, isExecution: bool): string {
    match mode
    case JP =>
      if isExecution then "*EXECU\U{00C7}\U{00C3}O DE ALTERA\U{00C7}\U{00C3}O EM MASSA (JP)*\n\U{2705} J\U{00E1} alinhado com o Andr\U{00E9}.\n\n"
      else "Ol\U{00E1}, Andr\U{00E9}. Por gentileza, \U{00E9} poss\U{00ED}vel realizar a altera\U{00E7}\U{00E3}o de Loja (JP) dessas visitas abaixo?\n\n"
    case Time =>
      if isExecution then "*EXECU\U{00C7}\U{00C3}O DE ALTERA\U{00C7}\U{00C3}O EM MASSA (HOR\U{00C1}RIO)*\n\U{2705} J\U{00E1} alinhado com o Andr\U{00E9}.\n\n"
      else "Ol\U{00E1}, Andr\U{00E9}. Por gentileza, \U{00E9} poss\U{00ED}vel alterar o hor\U{00E1}rio de atendimento dessas lojas abaixo?\n\n"
  }

  /** The lines one entry adds to the message. */
  function Block(mode: Mode, isExecution: bool, en: Entry): string {
    var v := en.visit;
    var e := en.edit;
    match mode
    case JP =>
      var head := "*" + en.dateStr + "* " + Arrow + " DE: " + v.store + " " + Arrow + " PARA: " + e.newStore + "\n";
      var times := OrElse(e.newStartTime, v.checkIn) + " - " + OrElse(e.newEndTime, v.checkOut);
      if !isExecution then
        head + Tag + " Tipo: " + OrElse(e.visitType, NoType) + " | " + Clock + " " + times + "\n"
        + Memo + " Motivo: " + OrElse(e.reason, NoReason) + "\n\n\n"
      else
        head + Tag + " " + OrElse(e.visitType, NoType) + " | " + Clock + " " + times + "\n\n"
    case Time =>
      var head := "*" + en.dateStr + "* | " + v.store + "\n";
      if !isExecution then
        head + Clock + " DE: " + v.checkIn + " - " + v.checkOut + " " + Arrow + " PARA: " + e.newStartTime + " - " + e.newEndTime + "\n"
        + Memo + " Motivo: " + OrElse(e.reason, NoReason) + "\n\n\n"
      else
        head + Clock + " NOVO HOR\U{00C1}RIO: " + e.newStartTime + " - " + e.newEndTime + "\n\n"
  }

  function Render(mode: Mode, isExecution: bool, ens: seq<Entry>): string {
    Concat(ens, (en: Entry) => Block(mode, isExecution, en))
  }

  lemma RenderSnoc(mode: Mode, isExecution: bool, ens: seq<Entry>, en: Entry)
    ensures Render(mode, isExecution, ens + [en]) == Render(mode, isExecution, ens) + Block(mode, isExecution, en)
  {
    ConcatSnoc(ens, en, (en: Entry) => Block(mode, isExecution, en));
  }

  /** The whole message: the header of the mode and kind, then one block per entry in day-list order. */
  function Message(mode: Mode, isExecution: bool, groups: seq<DateGroup>, sel: seq<string>, edits: map<string, Edit>): string {
    Header(mode, isExecution) + Render(mode, isExecution, Entries(groups, sel, edits))
  }

  lemma {:induction false} GroupEntriesUnselected(d: string, vs: seq<FlaggedVisit>, edits: map<string, Edit>)
    ensures GroupEntries(d, vs, [], edits) == []
  {
    if vs != [] {
      GroupEntriesUnselected(d, vs[..|vs| - 1], edits);
    }
  }

  /** With nothing selected there are no entries, so a message is its header alone. */
  lemma {:induction false} EmptyEntries(groups: seq<DateGroup>, edits: map<string, Edit>)
    ensures Entries(groups, [], edits) == []
  {
    if groups != [] {
      EmptyEntries(groups[..|groups| - 1], edits);
      GroupEntriesUnselected(groups[|groups| - 1].dateStr, groups[|groups| - 1].visits, edits);
    }
  }

  lemma RenderConcat(mode: Mode, isExecution: bool, a: seq<Entry>, b: seq<Entry>)
    ensures Render(mode, isExecution, a + b) == Render(mode, isExecution, a) + Render(mode, isExecution, b)
  {
    ConcatAppend(a, b, (en: Entry) => Block(mode, isExecution, en));
  }

  /** Rendering one visit more of a date appends that visit's block when it is an entry. */
  lemma RenderStep(prefix: string, mode: Mode, isExecution: bool, d: string, vs: seq<FlaggedVisit>, i: nat,
                   sel: seq<string>, edits: map<string, Edit>)
    requires i < |vs|
    ensures var id := UniqueId(d, i); var r := prefix + Render(mode, isExecution, GroupEntries(d, vs[..i], sel, edits));
      prefix + Render(mode, isExecution, GroupEntries(d, vs[..i + 1], sel, edits))
        == if id in sel && id in edits then r + Block(mode, isExecution, Entry(id, d, vs[i].visit, edits[id])) else r
  {
    GroupEntriesPrefix(d, vs, i, sel, edits);
    var done := GroupEntries(d, vs[..i], sel, edits);
    var id := UniqueId(d, i);
    if id in sel && id in edits {
      var en := Entry(id, d, vs[i].visit, edits[id]);
      RenderSnoc(mode, isExecution, done, en);
      ConcatAssoc(prefix, Render(mode, isExecution, done), Block(mode, isExecution, en));
    } else {
      assert done + [] == done;
    }
  }

  /** The inner `forEach` of `buildMessage`: one date's blocks appended to `message0`. */
  method RenderGroup(mode: Mode, isExecution: bool, d: string, vs: seq<FlaggedVisit>, sel: seq<string>,
                     edits: map<string, Edit>, message0: string)
    returns (message: string)
    ensures message == message0 + Render(mode, isExecution, GroupEntries(d, vs, sel, edits))
  {
    message := message0;
    var i := 0;
    while i < |vs|
      invariant 0 <= i <= |vs|
      invariant message == message0 + Render(mode, isExecution, GroupEntries(d, vs[..i], sel, edits))
    {
      var uniqueId := UniqueId(d, i);
      RenderStep(message0, mode, isExecution, d, vs, i, sel, edits);
      if uniqueId in sel && uniqueId in edits {
        message := message + Block(mode, isExecution, Entry(uniqueId, d, vs[i].visit, edits[uniqueId]));
      }
      i := i + 1;
    }
    assert vs[..i] == vs;
  }

  lemma MessageStep(message0: string, mode: Mode, isExecution: bool, groups: seq<DateGroup>, g: nat, sel: seq<string>, edits: map<string, Edit>)
    requires g < |groups|
    ensures message0 + Render(mode, isExecution, Entries(groups[..g + 1], sel, edits))
         == (message0 + Render(mode, isExecution, Entries(groups[..g], sel, edits)))
            + Render(mode, isExecution, GroupEntries(groups[g].dateStr, groups[g].visits, sel, edits))
  {
    EntriesPrefix(groups, g, sel, edits);
    var done := Entries(groups[..g], sel, edits);
    var more := GroupEntries(groups[g].dateStr, groups[g].visits, sel, edits);
    RenderConcat(mode, isExecution, done, more);
    ConcatAssoc(message0, Render(mode, isExecution, done), Render(mode, isExecution, more));
  }

  /** The outer `forEach` of `buildMessage`: every date's blocks appended to `message0`. */
  method RenderGroups(mode: Mode, isExecution: bool, groups: seq<DateGroup>, sel: seq<string>, edits: map<string, Edit>,
                      message0: string)
    returns (message: string)
    ensures message == message0 + Render(mode, isExecution, Entries(groups, sel, edits))
  {
    message := message0;
    var g := 0;
    while g < |groups|
      invariant 0 <= g <= |groups|
      invariant message == message0 + Render(mode, isExecution, Entries(groups[..g], sel, edits))
    {
      MessageStep(message0, mode, isExecution, groups, g, sel, edits);
      message := RenderGroup(mode, isExecution, groups[g].dateStr, groups[g].visits, sel, edits, message);
      g := g + 1;
    }
    assert groups[..g] == groups;
  }

  /** `buildMessage`: the header of the mode and kind, then the selected visits' blocks. */
  method RenderMessage(mode: Mode, isExecution: bool, groups: seq<DateGroup>, sel: seq<string>, edits: map<string, Edit>)
    returns (message: string)
    ensures message == Message(mode, isExecution, groups, sel, edits)
  {
    message := RenderGroups(mode, isExecution, groups, sel, edits, Header(mode, isExecution));
  }

  // ---------------------------------------------------------------------------------------------
  // The requests `handleRequestToAndre` stores and logs

  /** The store-change request stored for one entry (the timestamp is not modelled). */
  function JPRequestOf(en: Entry): JPRequest {
    JPRequest(en.visit.store, en.edit.newStore, OrElse(en.edit.newStartTime, en.visit.checkIn),
              OrElse(en.edit.newEndTime, en.visit.checkOut), en.dateStr, en.edit.visitType, true)
  }

  /** The time-change request stored for one entry (the timestamp is not modelled). */
  function TimeRequestOf(en: Entry): TimeRequest {
    TimeRequest(en.visit.checkIn + " - " + en.visit.checkOut, en.edit.newStartTime + "-" + en.edit.newEndTime, true)
  }

  /** The request block André reads names the same stores, date and times as the stored request. */
  lemma RequestMessageAgrees(en: Entry)
    ensures var r := JPRequestOf(en);
      Block(JP, false, en) ==
        "*" + r.newDate + "* " + Arrow + " DE: " + r.originalStore + " " + Arrow + " PARA: " + r.newStore + "\n"
        + Tag + " Tipo: " + OrElse(r.visitType, NoType) + " | " + Clock + " " + r.newTime + " - " + r.newTimeEnd + "\n"
        + Memo + " Motivo: " + OrElse(en.edit.reason, NoReason) + "\n\n\n"
  {
  }

  /** The payload sent to the spreadsheet log. */
  datatype SheetLog = SheetLog(
    consultant: string, kind: string, originalDate: string, originalTime: string, storeFrom: string,
    storeTo: string, newDate: string, newTime: string, visitType: string, reason: string)

  function LogOf(mode: Mode, user: string, en: Entry): SheetLog {
    var v := en.visit;
    var e := en.edit;
    var originalTime := v.checkIn + "-" + v.checkOut;
    match mode
    case JP =>
      var newTime := if e.newStartTime != "" && e.newEndTime != "" then e.newStartTime + "-" + e.newEndTime else originalTime;
      SheetLog(user, "Massa JP", en.dateStr, originalTime, v.store, e.newStore, en.dateStr, newTime, e.visitType, e.reason)
    case Time =>
      SheetLog(user, "Massa Hor\U{00E1}rio", en.dateStr, originalTime, v.store, v.store, en.dateStr,
               e.newStartTime + "-" + e.newEndTime, "Altera\U{00E7}\U{00E3}o Hor\U{00E1}rio", e.reason)
  }

  function Logs(mode: Mode, user: string, ens: seq<Entry>): (r: seq<SheetLog>)
    ensures |r| == |ens|
  {
    if ens == [] then [] else Logs(mode, user, ens[..|ens| - 1]) + [LogOf(mode, user, ens[|ens| - 1])]
  }

  /** One log record per entry, in order, describing that entry. */
  lemma {:induction false} LogsMeaning(mode: Mode, user: string, ens: seq<Entry>, i: nat)
    requires i < |ens|
    ensures Logs(mode, user, ens)[i] == LogOf(mode, user, ens[i])
    ensures var l := Logs(mode, user, ens)[i];
      && l.consultant == user && l.originalDate == ens[i].dateStr && l.newDate == ens[i].dateStr
      && l.storeFrom == ens[i].visit.store && l.reason == ens[i].edit.reason
      && l.storeTo == (if mode == JP then ens[i].edit.newStore else ens[i].visit.store)
  {
    if i < |ens| - 1 {
      LogsMeaning(mode, user, ens[..|ens| - 1], i);
    }
  }

  /**
   * The times a record logs: the original range, and as new range the edited one; in store-change
   * mode the original range stands in unless both new times are filled in.
   */
  lemma LogTimes(mode: Mode, user: string, en: Entry)
    ensures var l := LogOf(mode, user, en); var e := en.edit; var original := en.visit.checkIn + "-" + en.visit.checkOut;
      && l.originalTime == original
      && l.newTime == if mode == JP && (e.newStartTime == "" || e.newEndTime == "") then original else e.newStartTime + "-" + e.newEndTime
  {
  }

  lemma LogsSnoc(mode: Mode, user: string, ens: seq<Entry>, en: Entry)
    ensures Logs(mode, user, ens + [en]) == Logs(mode, user, ens) + [LogOf(mode, user, en)]
  {
    assert (ens + [en])[..|ens|] == ens;
  }

  /** The key one entry's request is stored under. */
  function RequestKey(mode: Mode, en: Entry): string {
    if mode == JP then JPKey(en.dateStr, en.visit.store) else TimeKey(en.dateStr, en.visit.store)
  }

  function Encoded(mode: Mode, encJP: JPRequest -> string, encTime: TimeRequest -> string, en: Entry): string {
    if mode == JP then encJP(JPRequestOf(en)) else encTime(TimeRequestOf(en))
  }

  /** The store after the requests of `ens` were written in order. */
  function SaveAll(st: Store, mode: Mode, encJP: JPRequest -> string, encTime: TimeRequest -> string, ens: seq<Entry>): Store {
    if ens == [] then st
    else
      var en := ens[|ens| - 1];
      SaveAll(st, mode, encJP, encTime, ens[..|ens| - 1])[RequestKey(mode, en) := Encoded(mode, encJP, encTime, en)]
  }

  lemma SaveAllSnoc(st: Store, mode: Mode, encJP: JPRequest -> string, encTime: TimeRequest -> string, ens: seq<Entry>, en: Entry)
    ensures SaveAll(st, mode, encJP, encTime, ens + [en])
         == SaveAll(st, mode, encJP, encTime, ens)[RequestKey(mode, en) := Encoded(mode, encJP, encTime, en)]
  {
    assert (ens + [en])[..|ens|] == ens;
  }

  /** Entry `i` is the last one whose request goes under its key. */
  predicate LastFor(mode: Mode, ens: seq<Entry>, i: int) {
    0 <= i < |ens| && forall j :: i < j < |ens| ==> RequestKey(mode, ens[j]) != RequestKey(mode, ens[i])
  }

  lemma SaveAllLast(st: Store, mode: Mode, encJP: JPRequest -> string, encTime: TimeRequest -> string, ens: seq<Entry>)
    requires ens != []
    ensures var en := ens[|ens| - 1];
      SaveAll(st, mode, encJP, encTime, ens) == SaveAll(st, mode, encJP, encTime, ens[..|ens| - 1])[RequestKey(mode, en) := Encoded(mode, encJP, encTime, en)]
  {
  }

  /** The last entry of a run is last for its key; an earlier one last in the run is last without the final entry. */
  lemma LastForPrefix(mode: Mode, ens: seq<Entry>, i: nat)
    requires LastFor(mode, ens, i) && i < |ens| - 1
    ensures LastFor(mode, ens[..|ens| - 1], i)
    ensures RequestKey(mode, ens[|ens| - 1]) != RequestKey(mode, ens[i])
  {
    var n := |ens| - 1;
    forall j | i < j < n ensures RequestKey(mode, ens[..n][j]) != RequestKey(mode, ens[..n][i]) {
      assert ens[..n][j] == ens[j] && ens[..n][i] == ens[i];
    }
  }

  /** Under each key written, the store holds the request of the last entry written there. */
  lemma {:induction false} SavedLast(st: Store, mode: Mode, encJP: JPRequest -> string, encTime: TimeRequest -> string, ens: seq<Entry>, i: nat)
    requires LastFor(mode, ens, i)
    ensures var k := RequestKey(mode, ens[i]); var st' := SaveAll(st, mode, encJP, encTime, ens);
      k in st' && st'[k] == Encoded(mode, encJP, encTime, ens[i])
  {
    var n := |ens| - 1;
    SaveAllLast(st, mode, encJP, encTime, ens);
    if i < n {
      var prefix := ens[..n];
      LastForPrefix(mode, ens, i);
      SavedLast(st, mode, encJP, encTime, prefix, i);
      assert prefix[i] == ens[i];
      StoreKeeps(SaveAll(st, mode, encJP, encTime, prefix), RequestKey(mode, ens[n]), Encoded(mode, encJP, encTime, ens[n]),
                 RequestKey(mode, ens[i]), Encoded(mode, encJP, encTime, ens[i]));
    }
  }

  /** Writing one key leaves what another holds. */
  lemma StoreKeeps(m: Store, k: string, v: string, k2: string, v2: string)
    requires k2 in m && m[k2] == v2 && k != k2
    ensures k2 in m[k := v] && m[k := v][k2] == v2
  {
  }

  /** A key no entry writes keeps what it held before. */
  lemma {:induction false} SavedElsewhere(st: Store, mode: Mode, encJP: JPRequest -> string, encTime: TimeRequest -> string, ens: seq<Entry>, k: string)
    requires forall j :: 0 <= j < |ens| ==> RequestKey(mode, ens[j]) != k
    ensures var st' := SaveAll(st, mode, encJP, encTime, ens);
      (k in st' <==> k in st) && (k in st ==> st'[k] == st[k])
  {
    if ens != [] {
      var n := |ens| - 1;
      assert forall j :: 0 <= j < n ==> ens[..n][j] == ens[j];
      SavedElsewhere(st, mode, encJP, encTime, ens[..n], k);
    }
  }

  /** The store after a sent request: every entry's request, then the mode's request flag. */
  function AfterRequest(st: Store, mode: Mode, encJP: JPRequest -> string, encTime: TimeRequest -> string, ens: seq<Entry>): Store {
    SaveAll(st, mode, encJP, encTime, ens)[RequestFlag(mode) := "true"]
  }

  /**
   * After a request, the day list marks every requested visit as pending, provided the stored
   * text is not empty; in store-change mode it also shows the request of the last entry for that
   * visit, provided the day list parses back what was stored.
   */
  lemma RequestShowsPending(st: Store, mode: Mode, encJP: JPRequest -> string, encTime: TimeRequest -> string,
                            ens: seq<Entry>, i: nat, parse: string -> Option<JPRequest>, dir: OMap<string>)
    requires LastFor(mode, ens, i)
    requires Encoded(mode, encJP, encTime, ens[i]) != ""
    ensures var f := Flag(AfterRequest(st, mode, encJP, encTime, ens), parse, dir, ens[i].dateStr, ens[i].visit);
      && f.hasPending
      && (mode == JP && parse(encJP(JPRequestOf(ens[i]))) == Some(JPRequestOf(ens[i])) ==>
            f.pendingChange.Some? && f.pendingChange.value.request == JPRequestOf(ens[i]))
  {
    SavedLast(st, mode, encJP, encTime, ens, i);
    FlagNotRequestKey(mode, ens[i].dateStr, ens[i].visit.store);
  }

  lemma {:induction false} SaveAllConcat(st: Store, mode: Mode, encJP: JPRequest -> string, encTime: TimeRequest -> string,
                                         a: seq<Entry>, b: seq<Entry>)
    ensures SaveAll(st, mode, encJP, encTime, a + b) == SaveAll(SaveAll(st, mode, encJP, encTime, a), mode, encJP, encTime, b)
  {
    if b != [] {
      var init := b[..|b| - 1];
      assert (a + b)[..|a + b| - 1] == a + init;
      SaveAllConcat(st, mode, encJP, encTime, a, init);
    } else {
      assert a + b == a;
    }
  }

  lemma {:induction false} LogsConcat(mode: Mode, user: string, a: seq<Entry>, b: seq<Entry>)
    ensures Logs(mode, user, a + b) == Logs(mode, user, a) + Logs(mode, user, b)
  {
    if b != [] {
      var init := b[..|b| - 1];
      assert (a + b)[..|a + b| - 1] == a + init;
      LogsConcat(mode, user, a, init);
    } else {
      assert a + b == a;
    }
  }

  /** Saving one visit more of a date writes that visit's request and logs it when it is an entry. */
  lemma SaveStep(st: Store, mode: Mode, user: string, encJP: JPRequest -> string, encTime: TimeRequest -> string,
                 d: string, vs: seq<FlaggedVisit>, i: nat, sel: seq<string>, edits: map<string, Edit>)
    requires i < |vs|
    ensures var id := UniqueId(d, i); var done := GroupEntries(d, vs[..i], sel, edits);
      var next := GroupEntries(d, vs[..i + 1], sel, edits);
      if id in sel && id in edits then
        var en := Entry(id, d, vs[i].visit, edits[id]);
        && SaveAll(st, mode, encJP, encTime, next) == SaveAll(st, mode, encJP, encTime, done)[RequestKey(mode, en) := Encoded(mode, encJP, encTime, en)]
        && Logs(mode, user, next) == Logs(mode, user, done) + [LogOf(mode, user, en)]
      else SaveAll(st, mode, encJP, encTime, next) == SaveAll(st, mode, encJP, encTime, done) && Logs(mode, user, next) == Logs(mode, user, done)
  {
    GroupEntriesPrefix(d, vs, i, sel, edits);
    var done := GroupEntries(d, vs[..i], sel, edits);
    var id := UniqueId(d, i);
    if id in sel && id in edits {
      var en := Entry(id, d, vs[i].visit, edits[id]);
      SaveAllSnoc(st, mode, encJP, encTime, done, en);
      LogsSnoc(mode, user, done, en);
    } else {
      assert done + [] == done;
    }
  }

  /** `localStorage.setItem` of one entry's request under the key of its mode. */
  method SaveEntry(mode: Mode, en: Entry, st0: Store, encJP: JPRequest -> string, encTime: TimeRequest -> string)
    returns (st: Store)
    ensures st == st0[RequestKey(mode, en) := Encoded(mode, encJP, encTime, en)]
  {
    if mode == JP {
      st := st0[JPKey(en.dateStr, en.visit.store) := encJP(JPRequestOf(en))];
    } else {
      st := st0[TimeKey(en.dateStr, en.visit.store) := encTime(TimeRequestOf(en))];
    }
  }

  /** The inner `forEach` of `handleRequestToAndre`: one date's requests written and logged. */
  method SaveGroup(mode: Mode, d: string, vs: seq<FlaggedVisit>, sel: seq<string>, edits: map<string, Edit>, user: string,
                   st0: Store, logs0: seq<SheetLog>, encJP: JPRequest -> string, encTime: TimeRequest -> string)
    returns (st: Store, logs: seq<SheetLog>)
    ensures st == SaveAll(st0, mode, encJP, encTime, GroupEntries(d, vs, sel, edits))
    ensures logs == logs0 + Logs(mode, user, GroupEntries(d, vs, sel, edits))
  {
    st := st0;
    var added := [];
    ghost var done: seq<Entry> := [];
    var i := 0;
    while i < |vs|
      invariant 0 <= i <= |vs|
      invariant done == GroupEntries(d, vs[..i], sel, edits)
      invariant st == SaveAll(st0, mode, encJP, encTime, done)
      invariant added == Logs(mode, user, done)
    {
      var uniqueId := UniqueId(d, i);
      SaveStep(st0, mode, user, encJP, encTime, d, vs, i, sel, edits);
      if uniqueId in sel && uniqueId in edits {
        var en := Entry(uniqueId, d, vs[i].visit, edits[uniqueId]);
        st := SaveEntry(mode, en, st, encJP, encTime);
        added := added + [LogOf(mode, user, en)];
      }
      done := GroupEntries(d, vs[..i + 1], sel, edits);
      i := i + 1;
    }
    assert vs[..i] == vs;
    logs := logs0 + added;
  }

  lemma SaveGroupStep(st: Store, mode: Mode, user: string, encJP: JPRequest -> string, encTime: TimeRequest -> string,
                      groups: seq<DateGroup>, g: nat, sel: seq<string>, edits: map<string, Edit>)
    requires g < |groups|
    ensures var done := Entries(groups[..g], sel, edits); var more := GroupEntries(groups[g].dateStr, groups[g].visits, sel, edits);
      && SaveAll(st, mode, encJP, encTime, Entries(groups[..g + 1], sel, edits))
           == SaveAll(SaveAll(st, mode, encJP, encTime, done), mode, encJP, encTime, more)
      && Logs(mode, user, Entries(groups[..g + 1], sel, edits)) == Logs(mode, user, done) + Logs(mode, user, more)
  {
    EntriesPrefix(groups, g, sel, edits);
    var done := Entries(groups[..g], sel, edits);
    var more := GroupEntries(groups[g].dateStr, groups[g].visits, sel, edits);
    SaveAllConcat(st, mode, encJP, encTime, done, more);
    LogsConcat(mode, user, done, more);
  }

  /** The requests and log records of `handleRequestToAndre`, before its message and flag. */
  method SaveRequests(mode: Mode, groups: seq<DateGroup>, sel: seq<string>, edits: map<string, Edit>, user: string,
                      st: Store, encJP: JPRequest -> string, encTime: TimeRequest -> string)
    returns (st': Store, logs: seq<SheetLog>)
    ensures st' == SaveAll(st, mode, encJP, encTime, Entries(groups, sel, edits))
    ensures logs == Logs(mode, user, Entries(groups, sel, edits))
  {
    st', logs := st, [];
    ghost var done: seq<Entry> := [];
    var g := 0;
    while g < |groups|
      invariant 0 <= g <= |groups|
      invariant done == Entries(groups[..g], sel, edits)
      invariant st' == SaveAll(st, mode, encJP, encTime, done)
      invariant logs == Logs(mode, user, done)
    {
      st', logs := SaveGroupAt(mode, groups, g, sel, edits, user, st, st', logs, encJP, encTime);
      done := Entries(groups[..g + 1], sel, edits);
      g := g + 1;
    }
    assert groups[..g] == groups;
  }

  /** One more date of the day list saved: the requests and logs of one more group of entries. */
  method SaveGroupAt(mode: Mode, groups: seq<DateGroup>, g: nat, sel: seq<string>, edits: map<string, Edit>, user: string,
                     st: Store, st0: Store, logs0: seq<SheetLog>, encJP: JPRequest -> string, encTime: TimeRequest -> string)
    returns (st': Store, logs: seq<SheetLog>)
    requires g < |groups|
    requires st0 == SaveAll(st, mode, encJP, encTime, Entries(groups[..g], sel, edits))
    requires logs0 == Logs(mode, user, Entries(groups[..g], sel, edits))
    ensures st' == SaveAll(st, mode, encJP, encTime, Entries(groups[..g + 1], sel, edits))
    ensures logs == Logs(mode, user, Entries(groups[..g + 1], sel, edits))
  {
    SaveGroupStep(st, mode, user, encJP, encTime, groups, g, sel, edits);
    st', logs := SaveGroup(mode, groups[g].dateStr, groups[g].visits, sel, edits, user, st0, logs0, encJP, encTime);
  }

  // ---------------------------------------------------------------------------------------------
  // The screen's state

  /** `selectedVisits.filter(i => i !== id)`. */
  function Without(sel: seq<string>, id: string): (r: seq<string>)
    ensures forall x :: x in r <==> x in sel && x != id
  {
    if sel == [] then []
    else
      var init := Without(sel[..|sel| - 1], id);
      assert forall x :: x in sel <==> x in sel[..|sel| - 1] || x == sel[|sel| - 1] by {
        assert sel == sel[..|sel| - 1] + [sel[|sel| - 1]];
      }
      if sel[|sel| - 1] != id then init + [sel[|sel| - 1]] else init
  }

  lemma {:induction false} WithoutDistinct(sel: seq<string>, id: string)
    requires Distinct(sel)
    ensures Distinct(Without(sel, id))
  {
    if sel != [] {
      var init := sel[..|sel| - 1];
      assert Distinct(init);
      WithoutDistinct(init, id);
      assert sel[|sel| - 1] !in init;
    }
  }

  lemma {:induction false} WithoutAbsent(sel: seq<string>, id: string)
    requires id !in sel
    ensures Without(sel, id) == sel
  {
    if sel != [] {
      WithoutAbsent(sel[..|sel| - 1], id);
      assert sel[..|sel| - 1] + [sel[|sel| - 1]] == sel;
    }
  }

  /** `handleSelect`: a selected visit is deselected and loses its edit; another is appended with a fresh edit. */
  function Toggle(sel: seq<string>, edits: map<string, Edit>, v: Visit, id: string): (seq<string>, map<string, Edit>) {
    if id in sel then (Without(sel, id), edits - {id}) else (sel + [id], edits[id := FreshEdit(v)])
  }

  ghost predicate Consistent(sel: seq<string>, edits: map<string, Edit>) {
    Distinct(sel) && forall id :: id in edits <==> id in sel
  }

  /**
   * Toggling keeps every selected visit listed once with exactly the selected visits holding an
   * edit, and flips whether the toggled visit is selected.
   */
  lemma ToggleConsistent(sel: seq<string>, edits: map<string, Edit>, v: Visit, id: string)
    requires Consistent(sel, edits)
    ensures Consistent(Toggle(sel, edits, v, id).0, Toggle(sel, edits, v, id).1)
    ensures id in Toggle(sel, edits, v, id).0 <==> id !in sel
    ensures id in Toggle(sel, edits, v, id).0 ==> Toggle(sel, edits, v, id).1[id] == FreshEdit(v)
  {
    if id in sel {
      WithoutDistinct(sel, id);
    }
  }

  /** Selecting a visit and deselecting it again restores the selection and the edits. */
  lemma ToggleTwice(sel: seq<string>, edits: map<string, Edit>, v: Visit, id: string)
    requires Consistent(sel, edits) && id !in sel
    ensures var t := Toggle(sel, edits, v, id); Toggle(t.0, t.1, v, id) == (sel, edits)
  {
    var t := Toggle(sel, edits, v, id);
    WithoutAbsent(sel, id);
    var s := sel + [id];
    assert s[..|s| - 1] == sel;
    assert Without(s, id) == Without(sel, id);
    assert t.1 - {id} == edits;
  }

  class Editor {
    const mode: Mode
    var selectedVisits: seq<string>
    var edits: map<string, Edit>
    var hasRequestSent: bool
    var hasExecutionSent: bool

    ghost predicate Valid()
      reads this
    {
      Consistent(selectedVisits, edits)
    }

    /** The flags start from the mode's keys in the store. */
    constructor(mode: Mode, st: Store)
      ensures this.mode == mode && Valid() && selectedVisits == [] && edits == map[]
      ensures hasRequestSent == Truthy(st, RequestFlag(mode))
      ensures hasExecutionSent == Truthy(st, ExecutionFlag(mode))
    {
      this.mode := mode;
      selectedVisits := [];
      edits := map[];
      hasRequestSent := Truthy(st, RequestFlag(mode));
      hasExecutionSent := Truthy(st, ExecutionFlag(mode));
    }

    /** The submit buttons are enabled exactly when some visit is selected and every selected visit's edit is complete. */
    function IsReadyToSubmit(): (r: bool)
      reads this
      ensures r <==>
        |selectedVisits| > 0 && forall i :: 0 <= i < |selectedVisits| ==> selectedVisits[i] in edits && Complete(mode, edits[selectedVisits[i]])
    {
      ReadyMeans(mode, selectedVisits, edits);
      Ready(mode, selectedVisits, edits)
    }

    method HandleSelect(visit: Visit, uniqueId: string)
      requires Valid()
      modifies this
      ensures Valid()
      ensures (selectedVisits, edits) == Toggle(old(selectedVisits), old(edits), visit, uniqueId)
      ensures hasRequestSent == old(hasRequestSent) && hasExecutionSent == old(hasExecutionSent)
    {
      ToggleConsistent(selectedVisits, edits, visit, uniqueId);
      if uniqueId in selectedVisits {
        selectedVisits := Without(selectedVisits, uniqueId);
        edits := edits - {uniqueId};
      } else {
        selectedVisits := selectedVisits + [uniqueId];
        edits := edits[uniqueId := FreshEdit(visit)];
      }
    }

    /** Only the one field of the one edit changes; a visit without an edit gets one. */
    method HandleEditChange(uniqueId: string, field: Field, value: string)
      requires Valid()
      modifies this
      ensures edits == old(edits)[uniqueId := SetField(if uniqueId in old(edits) then old(edits)[uniqueId] else Blank, field, value)]
      ensures selectedVisits == old(selectedVisits)
      ensures hasRequestSent == old(hasRequestSent) && hasExecutionSent == old(hasExecutionSent)
      ensures Valid() <==> uniqueId in selectedVisits
    {
      var base := if uniqueId in edits then edits[uniqueId] else Blank;
      edits := edits[uniqueId := SetField(base, field, value)];
    }

    /**
     * `handleRequestToAndre`: with visits selected, and unless an earlier request was sent and
     * the consultant declines to send again, it stores every entry's request, logs each one,
     * opens the message to André and raises the request flag.
     */
    method HandleRequestToAndre(groups: seq<DateGroup>, user: string, confirmResend: bool, st: Store,
                                encJP: JPRequest -> string, encTime: TimeRequest -> string, encodeURI: string -> string)
      returns (st': Store, logs: seq<SheetLog>, url: Option<string>)
      modifies this
      ensures unchanged(this`selectedVisits, this`edits, this`hasExecutionSent)
      ensures selectedVisits == [] || (old(hasRequestSent) && !confirmResend) ==>
        st' == st && logs == [] && url == None && hasRequestSent == old(hasRequestSent)
      ensures !(selectedVisits == [] || (old(hasRequestSent) && !confirmResend)) ==>
        var ens := Entries(groups, selectedVisits, edits);
        && st' == AfterRequest(st, mode, encJP, encTime, ens)
        && logs == Logs(mode, user, ens)
        && url == Some(Link(Some(Andre), Message(mode, false, groups, selectedVisits, edits), encodeURI))
        && hasRequestSent
    {
      if |selectedVisits| == 0 || (hasRequestSent && !confirmResend) {
        return st, [], None;
      }
      st', logs := SaveRequests(mode, groups, selectedVisits, edits, user, st, encJP, encTime);
      st' := st'[RequestFlag(mode) := "true"];
      assert st' == AfterRequest(st, mode, encJP, encTime, Entries(groups, selectedVisits, edits));
      var message := RenderMessage(mode, false, groups, selectedVisits, edits);
      url := Some(Link(Some(Andre), message, encodeURI));
      hasRequestSent := true;
    }

    /** `handleExecution`: the same guards; the message goes to a contact the user picks. */
    method HandleExecution(groups: seq<DateGroup>, confirmResend: bool, st: Store, encodeURI: string -> string)
      returns (st': Store, url: Option<string>)
      modifies this
      ensures unchanged(this`selectedVisits, this`edits, this`hasRequestSent)
      ensures selectedVisits == [] || (old(hasExecutionSent) && !confirmResend) ==>
        st' == st && url == None && hasExecutionSent == old(hasExecutionSent)
      ensures !(selectedVisits == [] || (old(hasExecutionSent) && !confirmResend)) ==>
        && st' == st[ExecutionFlag(mode) := "true"]
        && url == Some(Link(None, Message(mode, true, groups, selectedVisits, edits), encodeURI))
        && hasExecutionSent
    {
      if |selectedVisits| == 0 || (hasExecutionSent && !confirmResend) {
        return st, None;
      }
      var message := RenderMessage(mode, true, groups, selectedVisits, edits);
      url := Some(Link(None, message, encodeURI));
      hasExecutionSent := true;
      st' := st[ExecutionFlag(mode) := "true"];
    }
  }
}
