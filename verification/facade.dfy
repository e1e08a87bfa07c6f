/**
 * The contact service of js/facade/contactFacade.js: it turns an input bag
 * into a record and routes it to the repository (create, update, or drop),
 * and passes list, delete-one and delete-all straight through.
 */
module Facade {
  import opened Wrappers
  import opened Domain
  import opened Repository

  /**
   * `Object.assign(target, source)` for two records: every field of `source`
   * is copied onto `target`, so nothing of `target` survives.
   */
  function Assign(target: Contact, source: Contact): (r: Contact)
    ensures r == source
  {
    target.(
      id := source.id,
      nombre := source.nombre,
      email := source.email,
      telefono := source.telefono,
      motivo := source.motivo,
      mensaje := source.mensaje,
      aceptaTerminos := source.aceptaTerminos,
      preferenciaContacto := source.preferenciaContacto,
      fechaCreacion := source.fechaCreacion,
      fechaActualizacion := source.fechaActualizacion)
  }

  /**
   * The record a save without a truthy id stores: the form fields come from
   * the bag, while the repository overrides the id and both dates with its
   * own clock readings (the bag's id and creation date are lost).
   */
  function Created(bag: FormData, now: Stamp, nowMs: int, nowIso: Stamp): (c: Contact)
    ensures CopiesFormFields(c, bag)
    ensures c.id == Some(nowMs)
    ensures c.fechaCreacion == nowIso && c.fechaActualizacion == nowIso
  {
    NewContacto(bag, now).(id := Some(nowMs), fechaCreacion := nowIso, fechaActualizacion := nowIso)
  }

  /**
   * The collection after a save whose truthy id is stored: the first record
   * with that id is overwritten by the freshly built record (creation date
   * from the bag or `now`, update date `nowIso`); every other record stays.
   */
  function Edited(s: seq<Contact>, bag: FormData, now: Stamp, nowIso: Stamp): (r: seq<Contact>)
    requires IsTruthyId(bag.id) && HasId(s, bag.id)
    ensures |r| == |s|
    ensures forall k :: 0 <= k < |s| && k != FindIndex(s, bag.id) ==> r[k] == s[k]
    ensures var e := r[FindIndex(s, bag.id)];
      && e.id == bag.id
      && CopiesFormFields(e, bag)
      && e.fechaCreacion == (if IsTruthyStamp(bag.fechaCreacion) then bag.fechaCreacion.value else now)
      && e.fechaActualizacion == nowIso
  {
    var i := FindIndex(s, bag.id);
    s[i := Assign(s[i], NewContacto(bag, now)).(fechaActualizacion := nowIso)]
  }

  /** Creating keeps ids unique exactly when the clock reading used as id is not in use yet. */
  lemma CreateKeepsUniqueIds(s: seq<Contact>, bag: FormData, now: Stamp, nowMs: int, nowIso: Stamp)
    requires UniqueIds(s)
    ensures UniqueIds(s + [Created(bag, now, nowMs, nowIso)]) <==> !HasId(s, Some(nowMs))
  {
    AppendKeepsUniqueIds(s, Created(bag, now, nowMs, nowIso));
  }

  /** Editing never creates a duplicate id. */
  lemma EditKeepsUniqueIds(s: seq<Contact>, bag: FormData, now: Stamp, nowIso: Stamp)
    requires UniqueIds(s) && IsTruthyId(bag.id) && HasId(s, bag.id)
    ensures UniqueIds(Edited(s, bag, now, nowIso))
  {
    var i := FindIndex(s, bag.id);
    ReplaceKeepsUniqueIds(s, i, Edited(s, bag, now, nowIso)[i]);
    assert Edited(s, bag, now, nowIso) == s[i := Edited(s, bag, now, nowIso)[i]];
  }

  /** After an edit, looking the id up finds the edited record. */
  lemma EditThenFind(s: seq<Contact>, bag: FormData, now: Stamp, nowIso: Stamp)
    requires IsTruthyId(bag.id) && HasId(s, bag.id)
    ensures Find(Edited(s, bag, now, nowIso), bag.id) == Some(Edited(s, bag, now, nowIso)[FindIndex(s, bag.id)])
  {
    var i := FindIndex(s, bag.id);
    var e := Edited(s, bag, now, nowIso)[i];
    assert Edited(s, bag, now, nowIso) == s[i := e];
    FindAfterReplace(s, e);
  }

  /** After a create with a fresh clock reading, looking that id up finds the new record. */
  lemma CreateThenFind(s: seq<Contact>, bag: FormData, now: Stamp, nowMs: int, nowIso: Stamp)
    requires !HasId(s, Some(nowMs))
    ensures Find(s + [Created(bag, now, nowMs, nowIso)], Some(nowMs)) == Some(Created(bag, now, nowMs, nowIso))
  {
    FindAfterAppend(s, Created(bag, now, nowMs, nowIso));
  }

  /** The facade: its only state is the repository it was given. */
  class ContactFacade {
    const repository: ContactRepository

    constructor(repository: ContactRepository)
      ensures this.repository == repository
    {
      this.repository := repository;
    }

    /**
     * `guardarContacto`: a bag without a truthy id is added as a new record;
     * one whose id is stored overwrites that record; one whose id is not
     * stored is dropped without any write.
     * `now` is the constructor's clock reading, `nowMs` and `nowIso` the repository's.
     */
    method GuardarContacto(bag: FormData, now: Stamp, nowMs: int, nowIso: Stamp)
      modifies repository
      ensures !IsTruthyId(bag.id) ==>
        repository.slot == Some(old(repository.Contents()) + [Created(bag, now, nowMs, nowIso)])
      ensures IsTruthyId(bag.id) && HasId(old(repository.Contents()), bag.id) ==>
        repository.slot == Some(Edited(old(repository.Contents()), bag, now, nowIso))
      ensures IsTruthyId(bag.id) && !HasId(old(repository.Contents()), bag.id) ==>
        repository.slot == old(repository.slot)
    {
      var contacto := NewContacto(bag, now);
      if IsTruthyId(contacto.id) {
        var existingContact := repository.GetById(contacto.id);
        if existingContact.Some? {
          var merged := Assign(existingContact.value, contacto);
          var _ := repository.Update(merged, nowIso);
        }
      } else {
        var _ := repository.Add(contacto, nowMs, nowIso);
      }
    }

    /** `listarContactos`: exactly what the repository's `getAll` returns. */
    method ListarContactos() returns (contactos: seq<Contact>)
      ensures contactos == repository.Contents()
    {
      contactos := repository.GetAll();
    }

    /** `eliminarContacto`: the effect of the repository's `remove`. */
    method EliminarContacto(id: Id)
      modifies repository
      ensures repository.slot == Some(Without(old(repository.Contents()), id))
    {
      repository.Remove(id);
    }

    /** `borrarTodo`: the effect of the repository's `clear`. */
    method BorrarTodo()
      modifies repository
      ensures repository.slot == None
    {
      repository.Clear();
    }
  }
}
