/** The store-template ("SPBU") bookkeeping the forms share: the record, lookup
    by id, the selection after a delete, the selection a new snapshot keeps, the
    selection sync, the new-template and two-press delete buttons of
    NotaPertamina.jsx and NotaGenerator.jsx, and the
    `handleSpbuChange` edit with its width default. The template list is the
    list the Firestore listener delivers, passed in as a value. */
module Templates {
  import opened JsNumbers

  /** One template; `logoBase64` is `null` or a data URL, `receiptWidth` is 0 when absent. */
  datatype SpbuConfig = SpbuConfig(name: string, address: string, footerNote: string,
                                   receiptWidth: int, id: string, logoBase64: Option<string>)

  /** The `name` of a template input. */
  datatype SpbuField = Name | Address | FooterNote | ReceiptWidth

  /** The position of the first template with the given id, or the length of the list. */
  function FirstIndexOf(list: seq<SpbuConfig>, id: string): (k: nat)
    ensures k <= |list|
    ensures forall j :: 0 <= j < k ==> list[j].id != id
    ensures k < |list| ==> list[k].id == id
  {
    if list == [] then 0
    else if list[0].id == id then 0
    else 1 + FirstIndexOf(list[1..], id)
  }

  /** `list.find(s => s.id === id)`. */
  function Find(list: seq<SpbuConfig>, id: string): (r: Option<SpbuConfig>)
    ensures r.None? <==> forall k :: 0 <= k < |list| ==> list[k].id != id
    ensures r.Some? ==> r.value in list && r.value.id == id
    ensures r.Some? ==> r.value == list[FirstIndexOf(list, id)]
  {
    var k := FirstIndexOf(list, id);
    if k < |list| then Some(list[k]) else None
  }

  /** The first entry is always found under its own id. */
  lemma {:induction false} FindFirst(list: seq<SpbuConfig>)
    requires |list| > 0
    ensures Find(list, list[0].id) == Some(list[0])
  {
  }

  /** `list.filter(s => s.id !== id)`. */
  function Remaining(list: seq<SpbuConfig>, id: string): (r: seq<SpbuConfig>)
    ensures forall c :: c in r <==> c in list && c.id != id
    ensures |r| <= |list|
  {
    if list == [] then []
    else
      var rest := Remaining(list[1..], id);
      assert forall c :: c in list <==> c == list[0] || c in list[1..] by {
        assert list == [list[0]] + list[1..];
      }
      if list[0].id != id then [list[0]] + rest else rest
  }

  /** The first remaining entry is the first entry of the list with another id. */
  lemma {:induction false} RemainingHead(list: seq<SpbuConfig>, id: string)
    requires |Remaining(list, id)| > 0
    ensures exists k :: 0 <= k < |list| && Remaining(list, id)[0] == list[k] &&
                        (forall j :: 0 <= j < k ==> list[j].id == id)
  {
    if list[0].id == id {
      RemainingHead(list[1..], id);
      var k :| 0 <= k < |list[1..]| && Remaining(list[1..], id)[0] == list[1..][k] &&
        forall j :: 0 <= j < k ==> list[1..][j].id == id;
      assert Remaining(list, id)[0] == list[k + 1];
      forall j | 0 <= j < k + 1 ensures list[j].id == id {
        if j > 0 { assert list[j] == list[1..][j - 1]; }
      }
    } else {
      assert Remaining(list, id)[0] == list[0];
    }
  }

  /** The selection after deleting `deletedId`: `remaining.length > 0 ? remaining[0].id : ''`. */
  function SelectAfterDelete(list: seq<SpbuConfig>, deletedId: string): (sel: string)
    ensures Remaining(list, deletedId) == [] ==> sel == ""
    ensures Remaining(list, deletedId) != [] ==> sel == Remaining(list, deletedId)[0].id
    ensures sel != deletedId || sel == ""
    ensures sel == "" || exists c :: c in list && c.id == sel
  {
    var remaining := Remaining(list, deletedId);
    if |remaining| > 0 then
      assert remaining[0] in remaining;
      remaining[0].id
    else ""
  }

  /** A deleted template is never selected again, and the new selection (when
      there is one) is the first template the list still holds. */
  lemma {:induction false} DeleteSelectsFirstRemaining(list: seq<SpbuConfig>, deletedId: string)
    requires deletedId != ""
    ensures SelectAfterDelete(list, deletedId) != deletedId
    ensures (forall c :: c in list ==> c.id == deletedId) <==> Remaining(list, deletedId) == []
    ensures Remaining(list, deletedId) != [] ==>
      exists k :: 0 <= k < |list| && SelectAfterDelete(list, deletedId) == list[k].id &&
                  list[k].id != deletedId && (forall j :: 0 <= j < k ==> list[j].id == deletedId)
  {
    if Remaining(list, deletedId) != [] {
      RemainingHead(list, deletedId);
      assert Remaining(list, deletedId)[0] in Remaining(list, deletedId);
    } else {
      forall c | c in list ensures c.id == deletedId {
        assert c !in Remaining(list, deletedId);
      }
    }
  }

  /** `useState('')`: the selection every form starts with. */
  const InitialSelection: string := ""

  /** The snapshot listener of NotaPertamina.jsx and NotaGenerator.jsx:
      `if (list.length > 0 && !selectedSpbuId) setSelectedSpbuId(list[0].id)`.
      The listener subscribes once, so `captured` is the selection it closed over
      then; `current` is the live selection, which it keeps when it does not set one. */
  function SnapshotSelection(list: seq<SpbuConfig>, captured: string, current: string): (sel: string)
    ensures captured != "" || |list| == 0 ==> sel == current
    ensures captured == "" && |list| > 0 ==> sel == list[0].id
  {
    if |list| > 0 && captured == "" then list[0].id else current
  }

  /** The listener closed over the starting selection '', so every non-empty
      snapshot selects the first template, whatever the user selected since, and
      the sync then shows that template. */
  lemma {:induction false} SnapshotSelectsFirst(list: seq<SpbuConfig>, current: string, initial: SpbuConfig)
    requires |list| > 0
    ensures SnapshotSelection(list, InitialSelection, current) == list[0].id
    ensures SyncSelection(list, SnapshotSelection(list, InitialSelection, current), initial) == Synced(list[0], list[0].id)
  {
    FindFirst(list);
  }

  /** The selection sync of NotaPertamina.jsx and NotaGenerator.jsx: what
      becomes the current template, and what becomes the selection. */
  datatype Synced = Synced(current: SpbuConfig, selection: string)

  function SyncSelection(list: seq<SpbuConfig>, selected: string, initial: SpbuConfig): (s: Synced)
    ensures Find(list, selected).Some? ==> s == Synced(Find(list, selected).value, selected)
    ensures Find(list, selected).None? && |list| > 0 ==> s == Synced(list[0], list[0].id)
    ensures |list| == 0 ==> s == Synced(initial, selected)
  {
    match Find(list, selected)
    case Some(c) => Synced(c, selected)
    case None => if |list| > 0 then Synced(list[0], list[0].id) else Synced(initial, selected)
  }

  /** The sync runs again when it moves the selection; that second run keeps
      everything as it is. */
  lemma {:induction false} SyncSettles(list: seq<SpbuConfig>, selected: string, initial: SpbuConfig)
    ensures var s := SyncSelection(list, selected, initial);
      SyncSelection(list, s.selection, initial) == s
  {
    var s := SyncSelection(list, selected, initial);
    if Find(list, selected).None? && |list| > 0 {
      FindFirst(list);
    }
  }

  /** `name === 'receiptWidth' ? (parseInt(value) || defaultWidth) : value` on the
      named field; every other field is kept. */
  function SetField(cfg: SpbuConfig, field: SpbuField, value: string, defaultWidth: int): (r: SpbuConfig)
    ensures field == ReceiptWidth ==> r == cfg.(receiptWidth := ParseIntOr(value, defaultWidth))
    ensures field == Name ==> r == cfg.(name := value)
    ensures field == Address ==> r == cfg.(address := value)
    ensures field == FooterNote ==> r == cfg.(footerNote := value)
    ensures r.id == cfg.id && r.logoBase64 == cfg.logoBase64
  {
    match field
    case Name => cfg.(name := value)
    case Address => cfg.(address := value)
    case FooterNote => cfg.(footerNote := value)
    case ReceiptWidth => cfg.(receiptWidth := ParseIntOr(value, defaultWidth))
  }

  /** A width edit never stores 0, and stores a typed nonzero integer as typed. */
  lemma {:induction false} WidthEdit(cfg: SpbuConfig, n: int, value: string, defaultWidth: int)
    requires defaultWidth != 0
    ensures SetField(cfg, ReceiptWidth, value, defaultWidth).receiptWidth != 0
    ensures n != 0 ==> SetField(cfg, ReceiptWidth, IntString(n), defaultWidth).receiptWidth == n
  {
    ParseIntIntString(n);
  }

  /** `spbu.receiptWidth || defaultWidth`, the width the receipt is laid out at. */
  function ShownWidth(cfg: SpbuConfig, defaultWidth: int): (w: int)
    ensures cfg.receiptWidth != 0 ==> w == cfg.receiptWidth
    ensures cfg.receiptWidth == 0 ==> w == defaultWidth
  {
    if cfg.receiptWidth == 0 then defaultWidth else cfg.receiptWidth
  }

  /** `{ ...initialSpbuConfig, id: generateId(), name: 'SPBU BARU', logoBase64: null }`;
      the generated id is a parameter. */
  function NewTemplate(initial: SpbuConfig, freshId: string): (c: SpbuConfig)
    ensures c.id == freshId && c.name == "SPBU BARU" && c.logoBase64 == None
    ensures c.address == initial.address && c.footerNote == initial.footerNote
    ensures c.receiptWidth == initial.receiptWidth
  {
    initial.(id := freshId, name := "SPBU BARU", logoBase64 := None)
  }

  /** `handleAddNewSpbu` of NotaPertamina.jsx and NotaGenerator.jsx: the new
      template becomes the current one and the selection is cleared. */
  function AddNewSpbu(initial: SpbuConfig, freshId: string): (r: Synced)
    ensures r.current == NewTemplate(initial, freshId)
    ensures r.selection == ""
  {
    Synced(NewTemplate(initial, freshId), "")
  }

  /** Clearing a selection that was not already '' runs the sync again. No listed
      template has the id '', so the sync replaces the new template: by the first
      listed template, or by the initial one when the list is empty. */
  lemma {:induction false} AddNewReplacedBySync(list: seq<SpbuConfig>, initial: SpbuConfig, freshId: string)
    requires forall k :: 0 <= k < |list| ==> list[k].id != ""
    ensures var s := SyncSelection(list, AddNewSpbu(initial, freshId).selection, initial);
      (|list| > 0 ==> s == Synced(list[0], list[0].id)) && (|list| == 0 ==> s == Synced(initial, ""))
    ensures (forall k :: 0 <= k < |list| ==> list[k].id != freshId) && initial.id != freshId ==>
      SyncSelection(list, AddNewSpbu(initial, freshId).selection, initial).current != AddNewSpbu(initial, freshId).current
  {
  }

  /** The two-press delete of NotaPertamina.jsx and NotaGenerator.jsx: whether
      the button is armed (`deleteConfirm`) and the selection afterwards. */
  datatype DeleteStep = DeleteStep(armed: bool, selection: string)

  /** `handleDeleteSpbu`: an unarmed press only arms the button; an armed press
      without an id changes nothing; an armed press with an id deletes, disarms
      and moves the selection to the first remaining template, or to '' when none
      remain. */
  function DeletePress(list: seq<SpbuConfig>, cur: SpbuConfig, selected: string, armed: bool): (r: DeleteStep)
    ensures !armed ==> r == DeleteStep(true, selected)
    ensures armed && cur.id == "" ==> r == DeleteStep(true, selected)
    ensures armed && cur.id != "" ==> r == DeleteStep(false, SelectAfterDelete(list, cur.id))
    ensures armed && cur.id != "" ==> r.selection != cur.id
  {
    if !armed || cur.id == "" then DeleteStep(true, selected)
    else
      DeleteSelectsFirstRemaining(list, cur.id);
      DeleteStep(false, SelectAfterDelete(list, cur.id))
  }

  /** From the unarmed button, one press never deletes and two presses in a row
      (within the arming time) delete. */
  lemma {:induction false} DeleteNeedsTwoPresses(list: seq<SpbuConfig>, cur: SpbuConfig, selected: string)
    requires cur.id != ""
    ensures var first := DeletePress(list, cur, selected, false);
      first.armed && first.selection == selected &&
      DeletePress(list, cur, first.selection, first.armed) == DeleteStep(false, SelectAfterDelete(list, cur.id))
  {
  }

  /** `handleSaveSpbu` of NotaPertamina.jsx and NotaGenerator.jsx: refused when
      the name is empty, otherwise the template is written as it stands and
      becomes the selection. */
  function SaveAsIs(cur: SpbuConfig): (r: Option<SpbuConfig>)
    ensures r.None? <==> cur.name == ""
    ensures r.Some? ==> r.value == cur
  {
    if cur.name == "" then None else Some(cur)
  }

  /** Once the listener delivers the saved template, selecting it shows it. */
  lemma {:induction false} SavedIsShown(list: seq<SpbuConfig>, cur: SpbuConfig, initial: SpbuConfig)
    requires SaveAsIs(cur).Some? && Find(list, cur.id) == Some(cur)
    ensures SyncSelection(list, SaveAsIs(cur).value.id, initial) == Synced(cur, cur.id)
  {
  }
}
