/**
 * The record store of js/repository/contactRepository.js: every contact lives
 * in one array kept under a single storage key. `add`, `update` and `remove`
 * read the whole array, change it and write it back; `update` writes only when
 * the id is found; `clear` deletes the key.
 *
 * The array searches the store relies on (`find`, `findIndex`, `filter` on the
 * id) are the functions below; the class models the repository itself.
 */
module Repository {
  import opened Wrappers
  import opened Domain

  /** The storage key the repository keeps its array under. */
  const StorageKey: string := "contactos"

  /** Some record of `s` has id `id`. */
  predicate HasId(s: seq<Contact>, id: Id) {
    exists k :: 0 <= k < |s| && s[k].id == id
  }

  /** No two records of `s` share an id. */
  predicate UniqueIds(s: seq<Contact>) {
    forall i, j :: 0 <= i < j < |s| ==> s[i].id != s[j].id
  }

  /** `findIndex(c => c.id === id)`: the position of the first record with that id, or -1. */
  function FindIndex(s: seq<Contact>, id: Id): (i: int)
    ensures -1 <= i < |s|
    ensures i == -1 <==> !HasId(s, id)
    ensures 0 <= i ==> s[i].id == id && forall k :: 0 <= k < i ==> s[k].id != id
  {
    if s == [] then -1
    else if s[0].id == id then 0
    else
      var j := FindIndex(s[1..], id);
      if j == -1 then -1 else j + 1
  }

  /** `find(c => c.id === id)`: the first record with that id, or nothing. */
  function Find(s: seq<Contact>, id: Id): (r: Option<Contact>)
    ensures r.None? <==> !HasId(s, id)
    ensures r.Some? ==> r.value in s && r.value.id == id
  {
    if s == [] then None
    else if s[0].id == id then Some(s[0])
    else Find(s[1..], id)
  }

  /** `filter(c => c.id !== id)`: the records whose id differs, in their original order. */
  function Without(s: seq<Contact>, id: Id): (r: seq<Contact>)
    ensures |r| <= |s|
    ensures !HasId(r, id)
    ensures forall c :: c in r <==> c in s && c.id != id
  {
    if s == [] then []
    else if s[0].id == id then Without(s[1..], id)
    else [s[0]] + Without(s[1..], id)
  }

  /** `find` and `findIndex` on the same id agree: they stop at the same record. */
  lemma {:induction false} FindAtFindIndex(s: seq<Contact>, id: Id)
    ensures Find(s, id) == if FindIndex(s, id) == -1 then None else Some(s[FindIndex(s, id)])
  {
    if s != [] && s[0].id != id {
      FindAtFindIndex(s[1..], id);
    }
  }

  /** Filtering out an id no record has changes nothing. */
  lemma {:induction false} WithoutAbsent(s: seq<Contact>, id: Id)
    requires !HasId(s, id)
    ensures Without(s, id) == s
  {
    if s != [] {
      assert s[0].id != id;
      WithoutAbsent(s[1..], id);
    }
  }

  /** Removing twice is removing once. */
  lemma WithoutIdempotent(s: seq<Contact>, id: Id)
    ensures Without(Without(s, id), id) == Without(s, id)
  {
    WithoutAbsent(Without(s, id), id);
  }

  /** Filtering works piecewise, so the kept records stay in their original order. */
  lemma {:induction false} WithoutAppend(a: seq<Contact>, b: seq<Contact>, id: Id)
    ensures Without(a + b, id) == Without(a, id) + Without(b, id)
  {
    if a == [] {
      assert a + b == b;
    } else {
      assert (a + b)[0] == a[0] && (a + b)[1..] == a[1..] + b;
      WithoutAppend(a[1..], b, id);
    }
  }

  /**
   * In a collection with unique ids, removing an id that is present drops
   * exactly the record at its position and keeps all others, in order.
   */
  lemma WithoutUniquePresent(s: seq<Contact>, id: Id)
    requires UniqueIds(s) && HasId(s, id)
    ensures var i := FindIndex(s, id); Without(s, id) == s[..i] + s[i + 1..]
  {
    var i := FindIndex(s, id);
    NoIdAfterUnique(s, i);
    assert !HasId(s[..i], id) by {
      forall k | 0 <= k < i ensures s[..i][k].id != id {
        assert s[..i][k] == s[k];
      }
    }
    assert s == s[..i] + [s[i]] + s[i + 1..];
    WithoutOne(s[..i], s[i], s[i + 1..], id);
  }

  /** Filtering out the id of the only record that has it drops just that record. */
  lemma WithoutOne(pre: seq<Contact>, x: Contact, post: seq<Contact>, id: Id)
    requires !HasId(pre, id) && x.id == id && !HasId(post, id)
    ensures Without(pre + [x] + post, id) == pre + post
  {
    assert Without([x], id) == [] by {
      assert [x][1..] == [];
    }
    assert Without(pre + [x], id) == pre by {
      WithoutAppend(pre, [x], id);
      WithoutAbsent(pre, id);
      assert pre + [] == pre;
    }
    WithoutAppend(pre + [x], post, id);
    WithoutAbsent(post, id);
  }

  /** With unique ids, the id at position `i` occurs nowhere after it. */
  lemma NoIdAfterUnique(s: seq<Contact>, i: int)
    requires UniqueIds(s) && 0 <= i < |s|
    ensures !HasId(s[i + 1..], s[i].id)
  {
    var post := s[i + 1..];
    forall k | 0 <= k < |post| ensures post[k].id != s[i].id {
      assert post[k] == s[i + 1 + k];
    }
  }

  /** Removing records never creates a duplicate id. */
  lemma {:induction false} WithoutKeepsUniqueIds(s: seq<Contact>, id: Id)
    requires UniqueIds(s)
    ensures UniqueIds(Without(s, id))
  {
    if s != [] {
      var t := s[1..];
      assert UniqueIds(t) by {
        forall i, j | 0 <= i < j < |t| ensures t[i].id != t[j].id {
          assert t[i] == s[i + 1] && t[j] == s[j + 1];
        }
      }
      WithoutKeepsUniqueIds(t, id);
      if s[0].id != id {
        var r := Without(t, id);
        forall k | 0 <= k < |r| ensures r[k].id != s[0].id {
          assert r[k] in t;
          var m :| 0 <= m < |t| && t[m] == r[k];
          assert t[m] == s[m + 1];
        }
      }
    }
  }

  /** Appending keeps ids unique exactly when the new record's id is not already in use. */
  lemma AppendKeepsUniqueIds(s: seq<Contact>, c: Contact)
    requires UniqueIds(s)
    ensures UniqueIds(s + [c]) <==> !HasId(s, c.id)
  {
    var t := s + [c];
    if !HasId(s, c.id) {
      forall i, j | 0 <= i < j < |t| ensures t[i].id != t[j].id {
        if j == |s| {
          assert t[i] == s[i];
        } else {
          assert t[i] == s[i] && t[j] == s[j];
        }
      }
    } else {
      var k :| 0 <= k < |s| && s[k].id == c.id;
      assert t[k].id == t[|s|].id;
    }
  }

  /** Replacing a record by one with the same id keeps ids unique. */
  lemma ReplaceKeepsUniqueIds(s: seq<Contact>, i: int, c: Contact)
    requires UniqueIds(s) && 0 <= i < |s| && c.id == s[i].id
    ensures UniqueIds(s[i := c])
  {
  }

  /** After the first record with id `c.id` is replaced by `c`, looking that id up finds `c`. */
  lemma FindAfterReplace(s: seq<Contact>, c: Contact)
    requires HasId(s, c.id)
    ensures Find(s[FindIndex(s, c.id) := c], c.id) == Some(c)
  {
    var i := FindIndex(s, c.id);
    var t := s[i := c];
    assert FindIndex(t, c.id) == i by {
      assert t[i].id == c.id;
      assert forall k :: 0 <= k < i ==> t[k] == s[k];
      FindIndexIsFirst(t, c.id, i);
    }
    FindAtFindIndex(t, c.id);
  }

  /** The first position holding an id is where `findIndex` stops. */
  lemma {:induction false} FindIndexIsFirst(s: seq<Contact>, id: Id, i: int)
    requires 0 <= i < |s| && s[i].id == id
    requires forall k :: 0 <= k < i ==> s[k].id != id
    ensures FindIndex(s, id) == i
  {
    if i > 0 {
      FindIndexIsFirst(s[1..], id, i - 1);
    }
  }

  /** A record appended with a fresh id is found by that id. */
  lemma FindAfterAppend(s: seq<Contact>, c: Contact)
    requires !HasId(s, c.id)
    ensures Find(s + [c], c.id) == Some(c)
  {
    var t := s + [c];
    forall k | 0 <= k < |s| ensures t[k].id != c.id {
      assert t[k] == s[k];
    }
    FindIndexIsFirst(t, c.id, |s|);
    FindAtFindIndex(t, c.id);
  }

  /**
   * The repository. `slot` is what the browser store holds under
   * `storageKey`: None when the key is absent, otherwise the stored array
   * (serialising and parsing it back is taken to be the identity).
   */
  class ContactRepository {
    const storageKey: string
    var slot: Option<seq<Contact>>

    /** A repository over a store that already holds `stored` under the key (or nothing). */
    constructor(stored: Option<seq<Contact>>)
      ensures storageKey == StorageKey && slot == stored
    {
      storageKey := StorageKey;
      slot := stored;
    }

    /** The collection as the repository reads it: an absent key reads as empty. */
    function Contents(): seq<Contact>
      reads this
    {
      if slot.Some? then slot.value else []
    }

    /** `_loadData`: the stored array, or the empty array when the key is absent. */
    method LoadData() returns (data: seq<Contact>)
      ensures slot.None? ==> data == []
      ensures slot.Some? ==> data == slot.value
    {
      if slot.Some? {
        data := slot.value;
      } else {
        data := [];
      }
    }

    /** `_saveData`: the key now holds exactly `data`. */
    method SaveData(data: seq<Contact>)
      modifies this
      ensures slot == Some(data)
    {
      slot := Some(data);
    }

    /** `getAll`: every stored record, in stored order; empty when nothing is stored. */
    method GetAll() returns (all: seq<Contact>)
      ensures all == Contents()
    {
      all := LoadData();
    }

    /** `getById`: the first stored record with id `id`, or nothing when no record has it. */
    method GetById(id: Id) returns (r: Option<Contact>)
      ensures r.None? <==> !HasId(Contents(), id)
      ensures r.Some? ==> r.value == Contents()[FindIndex(Contents(), id)]
    {
      var contactos := GetAll();
      r := Find(contactos, id);
      FindAtFindIndex(contactos, id);
    }

    /**
     * `add`: gives the record id `nowMs` and both dates `nowIso`, appends it
     * and writes the array back. It does not look for an existing id.
     */
    method Add(contacto: Contact, nowMs: int, nowIso: Stamp) returns (stored: Contact)
      modifies this
      ensures stored == contacto.(id := Some(nowMs), fechaCreacion := nowIso, fechaActualizacion := nowIso)
      ensures slot == Some(old(Contents()) + [stored])
    {
      var contactos := GetAll();
      stored := contacto.(id := Some(nowMs), fechaCreacion := nowIso);
      stored := stored.(fechaActualizacion := stored.fechaCreacion);
      contactos := contactos + [stored];
      SaveData(contactos);
    }

    /**
     * `update`: when some record has `contacto.id`, the first such record is
     * replaced by `contacto` with update date `nowIso`, the array is written
     * back and the answer is true; otherwise nothing is written and it is false.
     */
    method Update(contacto: Contact, nowIso: Stamp) returns (found: bool)
      modifies this
      ensures found <==> HasId(old(Contents()), contacto.id)
      ensures found ==> slot == Some(old(Contents())[FindIndex(old(Contents()), contacto.id) := contacto.(fechaActualizacion := nowIso)])
      ensures !found ==> slot == old(slot)
    {
      var contactos := GetAll();
      var index := FindIndex(contactos, contacto.id);
      if index != -1 {
        var updated := contacto.(fechaActualizacion := nowIso);
        contactos := contactos[index := updated];
        SaveData(contactos);
        return true;
      }
      return false;
    }

    /** `remove`: writes back the array without any record of id `id`; always writes, even when nothing matched. */
    method Remove(id: Id)
      modifies this
      ensures slot == Some(Without(old(Contents()), id))
    {
      var contactos := GetAll();
      var filtered := Without(contactos, id);
      SaveData(filtered);
    }

    /** `clear`: deletes the key itself, so the store reads as empty afterwards. */
    method Clear()
      modifies this
      ensures slot == None
      ensures Contents() == []
    {
      slot := None;
    }
  }
}
