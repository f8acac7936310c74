/** The pre-notification (PVA) dialog of one cell: the triage category
    table, the form for a new or edited notification with its required
    fields, and the list of the cell's notifications ordered by triage
    category and arrival time. */
module PvaDialog {
  import opened Domain
  import Triage

  /** An entry of the triage category table. */
  datatype TriageCategory = TriageCategory(id: int, title: string, color: string)

  /** `TRIAGE_CATEGORIES`: defined for the ids 1, 2 and 3 only. */
  function TriageCategoryOf(id: int): (r: Option<TriageCategory>)
    ensures r.Some? <==> 1 <= id <= 3
    ensures r.Some? ==> r.value.id == id
  {
    if id == 1 then Some(TriageCategory(1, "Kategorie 1 - Kritisch", "#d32f2f"))
    else if id == 2 then Some(TriageCategory(2, "Kategorie 2 - Dringlich", "#f57c00"))
    else if id == 3 then Some(TriageCategory(3, "Kategorie 3 - Normal", "#2e7d32"))
    else None
  }

  /** The dot and chip colour of a list entry, grey for an unknown category. */
  function TriageColor(id: int): string {
    match TriageCategoryOf(id)
    case Some(c) => c.color
    case None => "#666"
  }

  /** The chip label of a list entry, "Unbekannt" for an unknown category. */
  function TriageLabel(id: int): string {
    match TriageCategoryOf(id)
    case Some(c) => c.title
    case None => "Unbekannt"
  }

  /** The three categories have distinct colours and labels, and every
      other id shows the fallback. */
  lemma TriagePresentation(a: int, b: int)
    ensures 1 <= a <= 3 && 1 <= b <= 3 && a != b ==> TriageColor(a) != TriageColor(b) && TriageLabel(a) != TriageLabel(b)
    ensures !(1 <= a <= 3) ==> TriageColor(a) == "#666" && TriageLabel(a) == "Unbekannt"
    ensures 1 <= a <= 3 ==> TriageColor(a) != "#666" && TriageLabel(a) != "Unbekannt"
  {
  }

  /** The form `resetForm` installs: a fresh id and arrival time, category
      1, priority "normal", status "angemeldet", the dialog's hospital and
      capacity names, every other text empty and no medical category. */
  function BlankPva(id: int, now: int, hospitalName: string, capacityName: string): (p: Pva)
    ensures p.id == id && p.arrivalTime == now && p.triageCategory == 1
    ensures p.logistics.priority == "normal" && p.status == "angemeldet"
    ensures p.hospital == hospitalName && p.capacity == capacityName
    ensures p.patient == PatientInfo("", "", "", "") && p.medical == MedicalInfo("", "", "", None)
    ensures p.logistics.transportMethod == "" && p.logistics.estimatedArrival == "" && p.logistics.specialRequirements == ""
  {
    Pva(id, 1, PatientInfo("", "", "", ""), MedicalInfo("", "", "", None),
        LogisticsInfo("", "", "normal", "", 0), now, hospitalName, capacityName, "angemeldet")
  }

  /** The required fields are filled: name and symptoms are non-empty
      strings (whitespace counts as filled). The save button is enabled
      exactly then. */
  predicate SaveEnabled(p: Pva) {
    p.patient.name != "" && p.patient.symptoms != ""
  }

  /** The list order: category ascending, then the form's arrival time. */
  function ListOrderKey(p: Pva): Triage.SortKey {
    Triage.SortKey(p.triageCategory, p.arrivalTime)
  }

  /** The order `renderPvaList` shows. */
  function SortedPvas(list: seq<Pva>): seq<Pva> {
    Triage.Sort(list, ListOrderKey)
  }

  /** The shown list holds exactly the cell's notifications, ordered by
      category and then arrival, with ties kept in their stored order. */
  lemma SortedPvasIsOrderedPermutation(list: seq<Pva>)
    ensures multiset(SortedPvas(list)) == multiset(list) && |SortedPvas(list)| == |list|
    ensures forall i, j :: 0 <= i < j < |SortedPvas(list)| ==>
      Triage.Compare(ListOrderKey(SortedPvas(list)[i]), ListOrderKey(SortedPvas(list)[j])) <= 0
    ensures forall k :: Triage.KeyClass(SortedPvas(list), ListOrderKey, k) == Triage.KeyClass(list, ListOrderKey, k)
  {
    Triage.SortPermutes(list, ListOrderKey);
    Triage.SortSorts(list, ListOrderKey);
    forall k ensures Triage.KeyClass(SortedPvas(list), ListOrderKey, k) == Triage.KeyClass(list, ListOrderKey, k) {
      Triage.SortIsStable(list, ListOrderKey, k);
    }
  }

  /** A critical notification is listed before an earlier urgent one. */
  lemma CriticalListedFirst(urgent: Pva, critical: Pva)
    requires urgent.triageCategory == 2 && critical.triageCategory == 1
    ensures SortedPvas([urgent, critical]) == [critical, urgent]
  {
    var s := [urgent, critical];
    assert s[..1] == [urgent] && [urgent][..0] == [];
    assert Triage.Sort([urgent], ListOrderKey) == [urgent];
    assert Triage.Compare(ListOrderKey(urgent), ListOrderKey(critical)) > 0;
    assert Triage.Insert([urgent], critical, ListOrderKey) == [critical, urgent];
  }

  /** `hospital?.name || ''`: the name of the `hospital` prop, or the
      empty string when the prop is absent. */
  function HospitalNameOf(hospital: Option<Hospital>): string
  {
    if hospital.Some? then hospital.value.name else ""
  }

  /** `capacity?.name || ''`. */
  function ItemNameOf(capacity: Option<Item>): string
  {
    if capacity.Some? then capacity.value.name else ""
  }

  /** The dialog's state. Its `hospital` and `capacity` props are read
      anew by every reset, so they are parameters of the operations that
      reset the form rather than fields fixed at mount. */
  class PvaDialogState {
    var newPva: Pva
    var editingPva: Option<int>
    var tabValue: nat

    /** The dialog's state when first mounted, with the props of that moment. */
    constructor (hospital: Option<Hospital>, capacity: Option<Item>, freshId: int, now: int)
      ensures newPva == BlankPva(freshId, now, HospitalNameOf(hospital), ItemNameOf(capacity))
      ensures editingPva == None && tabValue == 0
    {
      newPva := BlankPva(freshId, now, HospitalNameOf(hospital), ItemNameOf(capacity));
      editingPva := None;
      tabValue := 0;
    }

    /** `resetForm`: a blank form carrying the current props' names, and no
        notification being edited. */
    method ResetForm(freshId: int, now: int, hospital: Option<Hospital>, capacity: Option<Item>)
      modifies this`newPva, this`editingPva
      ensures newPva == BlankPva(freshId, now, HospitalNameOf(hospital), ItemNameOf(capacity)) && editingPva == None
    {
      newPva := BlankPva(freshId, now, HospitalNameOf(hospital), ItemNameOf(capacity));
      editingPva := None;
    }

    /** `handleSave`: refuses, changing nothing, unless name and symptoms
      are filled; otherwise passes the form on and resets it. */
    method HandleSave(freshId: int, now: int, hospital: Option<Hospital>, capacity: Option<Item>) returns (r: Option<Pva>)
      modifies this`newPva, this`editingPva
      ensures r.Some? <==> SaveEnabled(old(newPva))
      ensures r.None? ==> newPva == old(newPva) && editingPva == old(editingPva)
      ensures r.Some? ==> r.value == old(newPva)
      ensures r.Some? ==> newPva == BlankPva(freshId, now, HospitalNameOf(hospital), ItemNameOf(capacity))
      ensures r.Some? ==> editingPva == None
    {
      if newPva.patient.name == "" || newPva.patient.symptoms == "" {
        return None;
      }
      r := Some(newPva);
      ResetForm(freshId, now, hospital, capacity);
    }

    /** `handleEdit`: loads the notification and shows the first tab. */
    method HandleEdit(pva: Pva)
      modifies this`newPva, this`editingPva, this`tabValue
      ensures editingPva == Some(pva.id) && newPva == pva && tabValue == 0
    {
      editingPva := Some(pva.id);
      newPva := pva;
      tabValue := 0;
    }

    /** `handleCancel`: the same as `resetForm`. */
    method HandleCancel(freshId: int, now: int, hospital: Option<Hospital>, capacity: Option<Item>)
      modifies this`newPva, this`editingPva
      ensures newPva == BlankPva(freshId, now, HospitalNameOf(hospital), ItemNameOf(capacity)) && editingPva == None
    {
      ResetForm(freshId, now, hospital, capacity);
    }

    /** Choosing a triage category writes it to both category fields. */
    method SelectTriageCategory(c: int)
      modifies this`newPva
      ensures newPva == old(newPva).(triageCategory := c, medical := old(newPva).medical.(category := Some(c)))
      ensures newPva.medical.category == Some(newPva.triageCategory)
    {
      newPva := newPva.(triageCategory := c, medical := newPva.medical.(category := Some(c)));
    }
  }
}
