# Contact store model

A Dafny model of the persistence layer of a client-side contact-form page.
Contact records are kept as one array in a single browser-storage slot under
the key `contactos`. A repository offers create, read, update, delete and clear
over that array: `add`, `update` and `remove` read the whole array, change it
and write it back; `update` writes only when the id is found; `clear` deletes
the key. A facade turns
a form's data bag into a record and routes it:

- no truthy id: create;
- a truthy id that is stored: overwrite that record;
- a truthy id that is not stored: drop the save silently.

Its other three operations pass straight through to the repository.

Modules, one per core source file, plus `Wrappers` (Option) and `Scenarios` (client sessions):

- `Domain` (`domain.dfy`): the record, the input bag and the `Contacto`
  constructor as a pure function.
- `Repository` (`repository.dfy`): the array searches the store uses (`find`,
  `findIndex`, `filter` on the id) as recursive functions with their lemmas, and
  the class `ContactRepository` whose field `slot: Option<seq<Contact>>` is the
  storage slot (`None` = key absent).
- `Facade` (`facade.dfy`): `Object.assign`, the records a save produces, and the
  class `ContactFacade` holding only its repository.
- `Scenarios` (`scenarios.dfy`): page sessions (create, list, edit, delete,
  clear) proved from the contracts alone.
- `Wrappers` (`wrappers.dfy`): `Option`.

Clock readings are parameters. `now` is the constructor's reading; `nowMs`
(`Date.now()`) and `nowIso` (`new Date().toISOString()`) are the repository's.
Timestamps are opaque strings. Ids are `Option<int>`, with `None` standing for
`null`.

Three places where the code behaves differently from what a reader would expect; the model follows the code:

- Editing a record through the facade replaces its creation date. `Object.assign`
  copies every field of the freshly built `Contacto`, including `fechaCreacion`,
  which is "now" because the edit form carries no dates. A stored record's
  creation date would be expected never to change; the code replaces it on
  every edit. `Scenarios.CreateThenEdit` proves the code's behaviour.
- `getAll` does not fail soft, as one might expect of a read: `JSON.parse` of malformed stored text throws.
  The model's slot holds an already-parsed array, so malformed data cannot be
  represented (see Left out).
- Ids from `Date.now()` are not guaranteed unique. `Repository.AppendKeepsUniqueIds`
  states exactly when they are. `Scenarios.SameMillisecondCollision` shows two
  creations in one millisecond sharing an id, so one delete removes both.

## Model

| member | source | states |
|---|---|---|
| Domain.NewContacto | js/domain/Contacto.js:9-20 | never fails; id is null exactly when the bag's id is falsy (null or 0) and is the bag's id otherwise; the seven form fields are copied verbatim; creation date is the bag's when truthy, else now; update date is always now |
| Domain.RebuildKeepsRecord | js/domain/Contacto.js:10-19 | for a record with a truthy id and creation date (as every record `add` or `update` stores has), constructing from its own fields returns the record with only its update date refreshed |
| Domain.UpdateDateIgnoresBag | js/domain/Contacto.js:19 | whatever update date the bag holds does not affect the constructed record |
| Repository.FindIndex | js/repository/contactRepository.js:58 | -1 exactly when no record has the id; otherwise a position holding the id with no earlier position holding it |
| Repository.Find | js/repository/contactRepository.js:37 | nothing exactly when no record has the id; otherwise a stored record with that id |
| Repository.FindAtFindIndex | js/repository/contactRepository.js:35-61 | `find` and `findIndex` on the same id stop at the same record, so `getById` and `update` agree on the position |
| Repository.FindIndexIsFirst | js/repository/contactRepository.js:58 | the first position holding an id is the one `findIndex` returns |
| Repository.Without | js/repository/contactRepository.js:72 | no kept record has the id; a record is kept exactly when it was stored and has another id; never longer than the input |
| Repository.WithoutAbsent | js/repository/contactRepository.js:70-74 | removing an id no record has leaves the collection unchanged |
| Repository.WithoutIdempotent | js/repository/contactRepository.js:70-74 | removing the same id twice equals removing it once |
| Repository.WithoutAppend | js/repository/contactRepository.js:72 | filtering distributes over concatenation, so kept records keep their order |
| Repository.WithoutUniquePresent | js/repository/contactRepository.js:70-74 | with unique ids, removing a stored id drops exactly its record and keeps all others in order |
| Repository.WithoutOne | js/repository/contactRepository.js:72 | filtering out the id of the only record that holds it drops just that record and keeps the rest in order |
| Repository.WithoutKeepsUniqueIds | js/repository/contactRepository.js:70-74 | removal preserves unique ids |
| Repository.AppendKeepsUniqueIds | js/repository/contactRepository.js:43-51 | appending keeps ids unique if and only if the new record's id is not already stored (add does not check) |
| Repository.ReplaceKeepsUniqueIds | js/repository/contactRepository.js:56-64 | replacing a record by one with the same id preserves unique ids |
| Repository.FindAfterReplace | js/repository/contactRepository.js:56-64 | after update replaces the first record with an id, looking up that id finds the replacement |
| Repository.FindAfterAppend | js/repository/contactRepository.js:43-51 | a record appended with a fresh id is what looking up that id finds |
| Repository.ContactRepository.constructor | js/repository/contactRepository.js:7-10 | the key is `contactos`; the slot is whatever the store already held |
| Repository.ContactRepository.LoadData | js/repository/contactRepository.js:15-18 | empty array when the key is absent, otherwise the stored array |
| Repository.ContactRepository.SaveData | js/repository/contactRepository.js:23-25 | the slot holds exactly the given array |
| Repository.ContactRepository.GetAll | js/repository/contactRepository.js:29-31 | the stored array unchanged, empty when the key is absent |
| Repository.ContactRepository.GetById | js/repository/contactRepository.js:35-38 | nothing exactly when no stored record has the id, otherwise the record at the first position holding it |
| Repository.ContactRepository.Add | js/repository/contactRepository.js:43-51 | the record gets id nowMs and both dates nowIso and is appended; earlier records unchanged and in order; the stored record is returned |
| Repository.ContactRepository.Update | js/repository/contactRepository.js:56-66 | true exactly when the id is stored; then only the first matching position is replaced by the argument with update date now, length kept; otherwise false and the slot untouched |
| Repository.ContactRepository.Remove | js/repository/contactRepository.js:70-74 | the slot holds the previous collection filtered by id; it always writes, so an absent key becomes a stored array |
| Repository.ContactRepository.Clear | js/repository/contactRepository.js:78-80 | the key is absent and the collection reads as empty |
| Facade.Assign | js/facade/contactFacade.js:24 | `Object.assign` of a full record leaves nothing of the target: the result is the source |
| Facade.Created | js/facade/contactFacade.js:27-30 | a created record has the bag's form fields, id nowMs and both dates nowIso |
| Facade.Edited | js/facade/contactFacade.js:19-26 | an edit keeps the length and every other position; the first record with the id gets the bag's form fields, the bag's or the construction time's creation date, and update date nowIso |
| Facade.CreateKeepsUniqueIds | js/facade/contactFacade.js:27-30 | a create keeps ids unique if and only if the clock reading is not already an id |
| Facade.EditKeepsUniqueIds | js/facade/contactFacade.js:19-26 | an edit preserves unique ids |
| Facade.EditThenFind | js/facade/contactFacade.js:19-26 | after an edit, looking up the id finds the edited record |
| Facade.CreateThenFind | js/facade/contactFacade.js:27-30 | after a create with a fresh clock reading, looking up that id finds the new record |
| Facade.ContactFacade.constructor | js/facade/contactFacade.js:7-11 | the facade holds the injected repository and nothing else |
| Facade.ContactFacade.GuardarContacto | js/facade/contactFacade.js:16-31 | falsy id: one created record appended; truthy stored id: the edited collection; truthy unknown id: slot unchanged |
| Facade.ContactFacade.ListarContactos | js/facade/contactFacade.js:35-37 | exactly the repository's collection |
| Facade.ContactFacade.EliminarContacto | js/facade/contactFacade.js:41-43 | same effect as the repository's remove |
| Facade.ContactFacade.BorrarTodo | js/facade/contactFacade.js:47-49 | same effect as the repository's clear: the key is absent |
| Scenarios.CreateTwoDeleteFirst | js/facade/contactFacade.js:16-49 | create A and B on an empty store with distinct clock readings: lists [A'] then [A', B'] with unique ids; deleting A's id leaves [B']; clearing leaves [] |
| Scenarios.SameMillisecondCollision | js/repository/contactRepository.js:45 | two creations in the same millisecond share an id, and deleting it removes both |
| Scenarios.UnknownIdIsDropped | js/facade/contactFacade.js:19-22 | saving with a truthy id that is not stored leaves the list as it was |
| Scenarios.CreateThenEdit | js/facade/contactFacade.js:24-25 | editing a created record through a form without dates gives it the new fields and the edit's construction time as creation date |

## Left out

- Browser storage and JSON: the slot holds the parsed array; serialising then parsing is taken to be the identity.
- Repository.ContactRepository.LoadData: malformed stored text, on which `JSON.parse` throws, cannot be represented; nor can a stored empty string, nor stored JSON that parses to something other than an array (such as `null` or `5`), which `getAll` returns without error and on which `find`, `push` and `filter` then throw.
- Storage quota errors on write are not modelled.
- Clock reads are parameters. The constructor's two reads (creation and update date) are one value `now`. ISO-8601 formatting is not modelled.
- Nothing orders timestamps, so "the update date never decreases" is not stated.
- Aliasing: `add` mutates and returns its argument; `update` mutates its argument (its update date) and returns a boolean. The model returns or stores the updated value instead. Update's change to the caller's object is not modelled.
- `NaN` ids (from `parseInt` of non-numeric text) are not modelled. Ids are `null` or integers, compared as `===` compares them; `undefined` is never passed as an id (the constructor turns a missing id into `null`).
- Records and bags have exactly the ten stored fields. Extra properties, which `Object.assign` would leave on the stored record, are not modelled. Neither are `undefined` field values.
- The page scripts (`js/domain/app.js`, `js/domain/main.js`) are DOM wiring and are not part of this model. So is concurrent access from several browser tabs.
