/**
 * Client sessions against the facade, proved from the contracts alone: the
 * way the page drives the service (create, list, edit, delete, clear).
 */
module Scenarios {
  import opened Wrappers
  import opened Domain
  import opened Repository
  import opened Facade

  /**
   * On an empty store: create A, create B, delete A by its id, clear.
   * With distinct clock readings the ids differ and only B survives the delete.
   */
  method CreateTwoDeleteFirst(a: FormData, b: FormData, now: Stamp, ms1: int, ms2: int, iso1: Stamp, iso2: Stamp)
    returns (afterA: seq<Contact>, afterB: seq<Contact>, afterDelete: seq<Contact>, afterClear: seq<Contact>)
    requires !IsTruthyId(a.id) && !IsTruthyId(b.id) && ms1 != ms2
    ensures afterA == [Created(a, now, ms1, iso1)]
    ensures afterB == [Created(a, now, ms1, iso1), Created(b, now, ms2, iso2)] && UniqueIds(afterB)
    ensures afterDelete == [Created(b, now, ms2, iso2)]
    ensures afterClear == []
  {
    var repository := new ContactRepository(None);
    var facade := new ContactFacade(repository);
    facade.GuardarContacto(a, now, ms1, iso1);
    afterA := facade.ListarContactos();
    facade.GuardarContacto(b, now, ms2, iso2);
    afterB := facade.ListarContactos();
    facade.EliminarContacto(Some(ms1));
    afterDelete := facade.ListarContactos();
    assert afterB[1..] == [afterB[1]];
    facade.BorrarTodo();
    afterClear := facade.ListarContactos();
  }

  /**
   * Ids come from the millisecond clock: two creations in the same
   * millisecond share an id, and deleting that id removes both records.
   */
  method SameMillisecondCollision(a: FormData, b: FormData, now: Stamp, ms: int, iso1: Stamp, iso2: Stamp)
    returns (afterB: seq<Contact>, afterDelete: seq<Contact>)
    requires !IsTruthyId(a.id) && !IsTruthyId(b.id)
    ensures |afterB| == 2 && !UniqueIds(afterB)
    ensures afterDelete == []
  {
    var repository := new ContactRepository(None);
    var facade := new ContactFacade(repository);
    facade.GuardarContacto(a, now, ms, iso1);
    facade.GuardarContacto(b, now, ms, iso2);
    afterB := facade.ListarContactos();
    assert afterB[0].id == afterB[1].id;
    facade.EliminarContacto(Some(ms));
    afterDelete := facade.ListarContactos();
    assert afterB[1..] == [afterB[1]];
  }

  /** Saving with a truthy id that no record has leaves the list as it was: nothing is created. */
  method UnknownIdIsDropped(stored: seq<Contact>, bag: FormData, now: Stamp, nowMs: int, nowIso: Stamp)
    returns (before: seq<Contact>, after: seq<Contact>)
    requires IsTruthyId(bag.id) && !HasId(stored, bag.id)
    ensures before == stored && after == stored
  {
    var repository := new ContactRepository(Some(stored));
    var facade := new ContactFacade(repository);
    before := facade.ListarContactos();
    facade.GuardarContacto(bag, now, nowMs, nowIso);
    after := facade.ListarContactos();
  }

  /**
   * Create a record, then submit the edit form for it (the form carries the
   * id but no dates, as the page builds it) and look it up again: the new
   * fields are there, and the creation date is the edit's construction time,
   * not the one the record was created with.
   */
  method CreateThenEdit(first: FormData, edit: FormData, now1: Stamp, ms: int, iso1: Stamp, now2: Stamp, ms2: int, iso2: Stamp)
    returns (created: Contact, found: Option<Contact>)
    requires !IsTruthyId(first.id) && ms != 0
    requires edit.id == Some(ms) && edit.fechaCreacion.None?
    ensures created.id == Some(ms) && created.fechaCreacion == iso1
    ensures found.Some? && found.value.id == Some(ms)
    ensures CopiesFormFields(found.value, edit)
    ensures found.value.fechaCreacion == now2 && found.value.fechaActualizacion == iso2
  {
    var repository := new ContactRepository(None);
    var facade := new ContactFacade(repository);
    facade.GuardarContacto(first, now1, ms, iso1);
    var all := facade.ListarContactos();
    created := all[0];
    assert HasId(all, edit.id) by { assert all[0].id == Some(ms); }
    facade.GuardarContacto(edit, now2, ms2, iso2);
    found := repository.GetById(Some(ms));
  }
}
