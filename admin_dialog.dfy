/** The administration dialog: one form per registry (hospitals, capacity
    types, service groups), an "editing" slot per registry naming the entry
    being edited, the delete confirmation, and the system configuration with
    its three automatic free-report times. Saves are emitted as the
    `AdminSave` values the matrix applies. */
module AdminDialog {
  import opened Domain
  import Text
  import Registry
  import Matrix

  /** The hospital form: every hospital field except the id. */
  datatype HospitalForm = HospitalForm(
    name: string,
    alias: string,
    active: bool,
    address: string,
    phone: string,
    email: string,
    contactPerson: string)

  /** The capacity and service forms: every item field except the id. */
  datatype ItemForm = ItemForm(name: string, description: string, category: string)

  const EmptyHospitalForm: HospitalForm := HospitalForm("", "", true, "", "", "", "")
  const EmptyCapacityForm: ItemForm := ItemForm("", "", "capacity")
  const EmptyServiceForm: ItemForm := ItemForm("", "", "service")

  const DefaultSystemConfig: SystemConfig :=
    SystemConfig(["06:00", "14:00", "22:00"], "", 5, "", true, true, 50, [])

  /** `{ ...form, id }`. */
  function HospitalFrom(f: HospitalForm, id: int): (h: Hospital)
    ensures h.id == id
  {
    Hospital(id, f.name, f.alias, f.active, f.address, f.phone, f.email, f.contactPerson)
  }

  /** `{ ...hospital }` loaded into the form. */
  function FormOfHospital(h: Hospital): HospitalForm {
    HospitalForm(h.name, h.alias, h.active, h.address, h.phone, h.email, h.contactPerson)
  }

  function ItemFrom(f: ItemForm, id: int): (i: Item)
    ensures i.id == id
  {
    Item(id, f.name, f.description, f.category)
  }

  function FormOfItem(i: Item): ItemForm {
    ItemForm(i.name, i.description, i.category)
  }

  /** Loading an entry into its form and saving it under its own id gives
      the entry back, and a form survives being saved and reloaded. */
  lemma FormRoundTrips(h: Hospital, hf: HospitalForm, i: Item, f: ItemForm, id: int)
    ensures HospitalFrom(FormOfHospital(h), h.id) == h
    ensures FormOfHospital(HospitalFrom(hf, id)) == hf
    ensures ItemFrom(FormOfItem(i), i.id) == i
    ensures FormOfItem(ItemFrom(f, id)) == f
  {
  }

  /** The action a save emits: an edit while an entry is being edited, an
      add otherwise. */
  function SaveActionFor<T>(entry: T, editing: bool): Registry.Action<T> {
    if editing then Registry.Edit(entry) else Registry.Add(entry)
  }

  /** Which registry a delete button belongs to. */
  datatype EntityKind = HospitalKind | CapacityKind | ServiceKind

  /** `handleDeleteItem`: a delete of `{id}` for that registry, emitted only
      when the confirmation is accepted. */
  function DeleteRequest(kind: EntityKind, id: int, confirmed: bool): (r: Option<Matrix.AdminSave>)
    ensures r.Some? <==> confirmed
    ensures r.Some? ==> match kind
      case HospitalKind => r.value == Matrix.HospitalSave(Registry.Delete(id))
      case CapacityKind => r.value == Matrix.CapacitySave(Registry.Delete(id))
      case ServiceKind => r.value == Matrix.ServiceSave(Registry.Delete(id))
  {
    if !confirmed then None
    else match kind
      case HospitalKind => Some(Matrix.HospitalSave(Registry.Delete(id)))
      case CapacityKind => Some(Matrix.CapacitySave(Registry.Delete(id)))
      case ServiceKind => Some(Matrix.ServiceSave(Registry.Delete(id)))
  }

  /** Saving an entry that was loaded for editing and not changed leaves a
      registry in which it occurs with its id unchanged. */
  lemma {:induction false} UnchangedEditIsNoOp<T>(s: seq<T>, e: T, id: T -> int)
    requires forall i :: 0 <= i < |s| && id(s[i]) == id(e) ==> s[i] == e
    ensures Registry.Apply(s, Registry.Edit(e), id) == s
  {
    var r := Registry.Apply(s, Registry.Edit(e), id);
    assert r == Registry.ReplaceById(s, e, id);
    assert forall i :: 0 <= i < |s| ==> r[i] == s[i];
  }

  class AdminDialogState {
    var hospitalForm: HospitalForm
    var capacityForm: ItemForm
    var serviceForm: ItemForm
    var editingHospital: Option<Hospital>
    var editingCapacity: Option<Item>
    var editingService: Option<Item>
    var systemConfig: SystemConfig

    /** There are exactly three automatic free-report times. */
    predicate Valid()
      reads this
    {
      |systemConfig.autoFreeTimes| == 3
    }

    constructor ()
      ensures Valid()
      ensures hospitalForm == EmptyHospitalForm && capacityForm == EmptyCapacityForm && serviceForm == EmptyServiceForm
      ensures editingHospital == None && editingCapacity == None && editingService == None
      ensures systemConfig == DefaultSystemConfig
    {
      hospitalForm, capacityForm, serviceForm := EmptyHospitalForm, EmptyCapacityForm, EmptyServiceForm;
      editingHospital, editingCapacity, editingService := None, None, None;
      systemConfig := DefaultSystemConfig;
    }

    /** `resetHospitalForm`. */
    method ResetHospitalForm()
      modifies this`hospitalForm, this`editingHospital
      ensures hospitalForm == EmptyHospitalForm && editingHospital == None
    {
      hospitalForm, editingHospital := EmptyHospitalForm, None;
    }

    /** `resetCapacityForm`. */
    method ResetCapacityForm()
      modifies this`capacityForm, this`editingCapacity
      ensures capacityForm == EmptyCapacityForm && editingCapacity == None
    {
      capacityForm, editingCapacity := EmptyCapacityForm, None;
    }

    /** `resetServiceForm`. */
    method ResetServiceForm()
      modifies this`serviceForm, this`editingService
      ensures serviceForm == EmptyServiceForm && editingService == None
    {
      serviceForm, editingService := EmptyServiceForm, None;
    }

    /** `handleSaveHospital`: nothing happens while the name is blank after
      trimming; otherwise the form is emitted as an edit under the edited
      hospital's id, or as an add under the fresh id `now`, and the form
      is reset. */
    method SaveHospital(now: int) returns (r: Option<Matrix.AdminSave>)
      modifies this`hospitalForm, this`editingHospital
      ensures r.None? <==> Text.IsBlank(old(hospitalForm).name)
      ensures r.None? ==> hospitalForm == old(hospitalForm) && editingHospital == old(editingHospital)
      ensures r.Some? ==> r.value == Matrix.HospitalSave(SaveActionFor(
        HospitalFrom(old(hospitalForm), if old(editingHospital).Some? then old(editingHospital).value.id else now),
        old(editingHospital).Some?))
      ensures r.Some? ==> hospitalForm == EmptyHospitalForm && editingHospital == None
    {
      if Text.IsBlank(hospitalForm.name) {
        return None;
      }
      var id := if editingHospital.Some? then editingHospital.value.id else now;
      r := Some(Matrix.HospitalSave(SaveActionFor(HospitalFrom(hospitalForm, id), editingHospital.Some?)));
      ResetHospitalForm();
    }

    /** `handleSaveCapacity`, with the same rules as a hospital save. */
    method SaveCapacity(now: int) returns (r: Option<Matrix.AdminSave>)
      modifies this`capacityForm, this`editingCapacity
      ensures r.None? <==> Text.IsBlank(old(capacityForm).name)
      ensures r.None? ==> capacityForm == old(capacityForm) && editingCapacity == old(editingCapacity)
      ensures r.Some? ==> r.value == Matrix.CapacitySave(SaveActionFor(
        ItemFrom(old(capacityForm), if old(editingCapacity).Some? then old(editingCapacity).value.id else now),
        old(editingCapacity).Some?))
      ensures r.Some? ==> capacityForm == EmptyCapacityForm && editingCapacity == None
    {
      if Text.IsBlank(capacityForm.name) {
        return None;
      }
      var id := if editingCapacity.Some? then editingCapacity.value.id else now;
      r := Some(Matrix.CapacitySave(SaveActionFor(ItemFrom(capacityForm, id), editingCapacity.Some?)));
      ResetCapacityForm();
    }

    /** `handleSaveService`, with the same rules as a hospital save. */
    method SaveService(now: int) returns (r: Option<Matrix.AdminSave>)
      modifies this`serviceForm, this`editingService
      ensures r.None? <==> Text.IsBlank(old(serviceForm).name)
      ensures r.None? ==> serviceForm == old(serviceForm) && editingService == old(editingService)
      ensures r.Some? ==> r.value == Matrix.ServiceSave(SaveActionFor(
        ItemFrom(old(serviceForm), if old(editingService).Some? then old(editingService).value.id else now),
        old(editingService).Some?))
      ensures r.Some? ==> serviceForm == EmptyServiceForm && editingService == None
    {
      if Text.IsBlank(serviceForm.name) {
        return None;
      }
      var id := if editingService.Some? then editingService.value.id else now;
      r := Some(Matrix.ServiceSave(SaveActionFor(ItemFrom(serviceForm, id), editingService.Some?)));
      ResetServiceForm();
    }

    /** `handleEditHospital`: remembers the hospital and loads its fields. */
    method EditHospital(h: Hospital)
      modifies this`hospitalForm, this`editingHospital
      ensures editingHospital == Some(h) && hospitalForm == FormOfHospital(h)
      ensures HospitalFrom(hospitalForm, editingHospital.value.id) == h
    {
      editingHospital, hospitalForm := Some(h), FormOfHospital(h);
    }

    /** `handleEditCapacity`. */
    method EditCapacity(i: Item)
      modifies this`capacityForm, this`editingCapacity
      ensures editingCapacity == Some(i) && capacityForm == FormOfItem(i)
      ensures ItemFrom(capacityForm, editingCapacity.value.id) == i
    {
      editingCapacity, capacityForm := Some(i), FormOfItem(i);
    }

    /** `handleEditService`. */
    method EditService(i: Item)
      modifies this`serviceForm, this`editingService
      ensures editingService == Some(i) && serviceForm == FormOfItem(i)
      ensures ItemFrom(serviceForm, editingService.value.id) == i
    {
      editingService, serviceForm := Some(i), FormOfItem(i);
    }

    /** Editing the time field at `index` replaces that slot only. */
    method SetAutoFreeTime(index: nat, value: string)
      requires Valid() && index < |systemConfig.autoFreeTimes|
      modifies this`systemConfig
      ensures Valid()
      ensures systemConfig == old(systemConfig).(autoFreeTimes := old(systemConfig).autoFreeTimes[index := value])
      ensures forall j :: 0 <= j < 3 && j != index ==> systemConfig.autoFreeTimes[j] == old(systemConfig).autoFreeTimes[j]
      ensures systemConfig.autoFreeTimes[index] == value
    {
      var times := systemConfig.autoFreeTimes;
      times := times[index := value];
      systemConfig := systemConfig.(autoFreeTimes := times);
    }

    /** "Konfiguration speichern": emits the configuration; the matrix
      ignores it. */
    method SaveSystemConfig() returns (r: Matrix.AdminSave)
      ensures r == Matrix.SystemSave(systemConfig)
    {
      r := Matrix.SystemSave(systemConfig);
    }
  }

  /** Editing an entry and saving it unchanged emits an edit that leaves a
      registry holding that entry under a unique id as it was. */
  lemma EditSaveRoundTrip(s: seq<Hospital>, h: Hospital)
    requires forall i :: 0 <= i < |s| && s[i].id == h.id ==> s[i] == h
    ensures Registry.Apply(s, SaveActionFor(HospitalFrom(FormOfHospital(h), h.id), true), HospitalId) == s
  {
    UnchangedEditIsNoOp(s, h, HospitalId);
  }
}
