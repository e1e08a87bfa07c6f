/**
 * The contact record and its construction from the data bag a contact form
 * produces (the `Contacto` class of js/domain/Contacto.js).
 *
 * Field names follow the stored layout: each record is kept in the browser
 * store with exactly these ten fields.
 */
module Domain {
  import opened Wrappers

  /** A timestamp in ISO-8601 text form; the core never looks inside it. */
  type Stamp = string

  /** An identifier as the core compares it with `===`: `null` (None) or an integer. */
  type Id = Option<int>

  /** A contact record: a transient one has `id == None`, a persisted one an integer id. */
  datatype Contact = Contact(
    id: Id,
    nombre: string,
    email: string,
    telefono: string,
    motivo: string,
    mensaje: string,
    aceptaTerminos: bool,
    preferenciaContacto: string,
    fechaCreacion: Stamp,
    fechaActualizacion: Stamp)

  /**
   * The input bag handed to the constructor. The constructor reads the
   * record's fields from it; the timestamps are optional, and the page's
   * form never sets them.
   */
  datatype FormData = FormData(
    id: Id,
    nombre: string,
    email: string,
    telefono: string,
    motivo: string,
    mensaje: string,
    aceptaTerminos: bool,
    preferenciaContacto: string,
    fechaCreacion: Option<Stamp>,
    fechaActualizacion: Option<Stamp>)

  /** JavaScript truthiness of an id: `null` and `0` are falsy, every other integer truthy. */
  predicate IsTruthyId(id: Id) {
    id.Some? && id.value != 0
  }

  /** JavaScript truthiness of an optional text: absent and the empty string are falsy. */
  predicate IsTruthyStamp(s: Option<Stamp>) {
    s.Some? && s.value != ""
  }

  /** The seven form fields of `c` are those of `bag`, verbatim. */
  predicate CopiesFormFields(c: Contact, bag: FormData) {
    && c.nombre == bag.nombre
    && c.email == bag.email
    && c.telefono == bag.telefono
    && c.motivo == bag.motivo
    && c.mensaje == bag.mensaje
    && c.aceptaTerminos == bag.aceptaTerminos
    && c.preferenciaContacto == bag.preferenciaContacto
  }

  /**
   * `new Contacto(bag)` at time `now`. It never fails: every bag yields a
   * record. The id is kept only when truthy, the creation date is the bag's
   * when truthy and `now` otherwise, and the update date is always `now`.
   */
  function NewContacto(bag: FormData, now: Stamp): (c: Contact)
    ensures c.id.None? <==> !IsTruthyId(bag.id)
    ensures c.id.Some? ==> c.id == bag.id && IsTruthyId(c.id)
    ensures CopiesFormFields(c, bag)
    ensures c.fechaCreacion == if IsTruthyStamp(bag.fechaCreacion) then bag.fechaCreacion.value else now
    ensures c.fechaActualizacion == now
  {
    Contact(
      if IsTruthyId(bag.id) then bag.id else None,
      bag.nombre,
      bag.email,
      bag.telefono,
      bag.motivo,
      bag.mensaje,
      bag.aceptaTerminos,
      bag.preferenciaContacto,
      if IsTruthyStamp(bag.fechaCreacion) then bag.fechaCreacion.value else now,
      now)
  }

  /** The bag that holds exactly a record's fields; a helper for stating `RebuildKeepsRecord`. */
  function AsFormData(c: Contact): FormData
  {
    FormData(
      c.id, c.nombre, c.email, c.telefono, c.motivo, c.mensaje, c.aceptaTerminos,
      c.preferenciaContacto, Some(c.fechaCreacion), Some(c.fechaActualizacion))
  }

  /**
   * Rebuilding a record from its own fields gives it back with only the update
   * date refreshed: the bag's update date is ignored, its id and creation date
   * survive as long as they are truthy.
   */
  lemma RebuildKeepsRecord(c: Contact, now: Stamp)
    requires c.id != Some(0) && c.fechaCreacion != ""
    ensures NewContacto(AsFormData(c), now) == c.(fechaActualizacion := now)
  {
  }

  /** The constructor ignores whatever update date the bag carries. */
  lemma UpdateDateIgnoresBag(bag: FormData, other: Option<Stamp>, now: Stamp)
    ensures NewContacto(bag.(fechaActualizacion := other), now) == NewContacto(bag, now)
  {
  }
}
