/** One touch snapshot, as every touch back end is given it. */
module TouchState {
  import opened Bytes
  import opened Common

  const MAX_CONTACTS: nat := 10

  datatype Contact = Contact(id: byte, x: u16, y: u16, pressure: u16, width: u16, height: u16, down: bool)

  predicate Mentions(contacts: seq<Contact>, id: byte) {
    exists i :: 0 <= i < |contacts| && contacts[i].id == id
  }

  predicate DistinctIds(contacts: seq<Contact>) {
    forall i, j :: 0 <= i < j < |contacts| ==> contacts[i].id != contacts[j].id
  }

  /** The first contact with an id, or the number of contacts when there is none. */
  function FindContact(contacts: seq<Contact>, id: byte): (i: nat)
    ensures i <= |contacts|
    ensures i < |contacts| ==> contacts[i].id == id
    ensures forall j :: 0 <= j < i ==> contacts[j].id != id
  {
    FirstIndex(contacts, (c: Contact) => c.id == id)
  }
}
