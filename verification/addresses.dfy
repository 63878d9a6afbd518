/** The address book of addressControllers.js: every user's addresses, at most one of them
    the default, and the default never deleted. */
module Addresses {
  import opened Wrappers
  import Http

  type AddressId = string
  type UserId = string

  /** The address fields a user enters (name, phone, street, city and so on). */
  type AddressDetails = map<string, string>

  datatype Address = Address(user: UserId, details: AddressDetails, isDefault: bool, isDeleted: bool)

  type Book = map<AddressId, Address>

  /** `Address.findOne({ _id: id, isDeleted: false })`. */
  predicate Live(book: Book, id: AddressId) {
    id in book && !book[id].isDeleted
  }

  /** `Address.countDocuments({ user, isDeleted: false })` is not zero. */
  predicate HasLiveAddress(book: Book, user: UserId) {
    exists a :: a in book && book[a].user == user && !book[a].isDeleted
  }

  predicate IsDefaultOf(book: Book, user: UserId, a: AddressId) {
    a in book && book[a].user == user && book[a].isDefault
  }

  ghost predicate HasDefault(book: Book, user: UserId) {
    exists a :: IsDefaultOf(book, user, a)
  }

  predicate AtMostOneDefault(book: Book) {
    forall a, b :: a in book && b in book && a != b && book[a].isDefault && book[b].isDefault
      ==> book[a].user != book[b].user
  }

  /** The invariant the handlers keep: one default at most per user; a deleted address is
      never the default; a user with a live address has a default. */
  ghost predicate ValidBook(book: Book) {
    AtMostOneDefault(book)
    && (forall a :: a in book && book[a].isDeleted ==> !book[a].isDefault)
    && (forall a :: a in book && !book[a].isDeleted ==> HasDefault(book, book[a].user))
  }

  /** `Address.findOneAndUpdate({ user, isDefault: true }, { isDefault: false })`, stated for
      all of the user's defaults; under the invariant there is at most one. */
  function ClearDefault(book: Book, user: UserId): (r: Book)
    ensures r.Keys == book.Keys
    ensures forall a :: a in book ==> r[a] == if book[a].user == user then book[a].(isDefault := false) else book[a]
  {
    map a | a in book :: if book[a].user == user then book[a].(isDefault := false) else book[a]
  }

  /** With no default to clear, clearing changes nothing. */
  lemma ClearWithoutDefault(book: Book, user: UserId)
    requires !HasDefault(book, user)
    ensures ClearDefault(book, user) == book
  {
    forall a | a in book
      ensures ClearDefault(book, user)[a] == book[a]
    {
      assert !IsDefaultOf(book, user, a);
    }
  }

  /** Storing a live default after clearing its owner's old one keeps the invariant. */
  lemma PutDefaultKeepsValid(book: Book, id: AddressId, a: Address)
    requires ValidBook(book)
    requires a.isDefault && !a.isDeleted
    requires id in book ==> book[id].user == a.user
    ensures ValidBook(ClearDefault(book, a.user)[id := a])
  {
    var r := ClearDefault(book, a.user)[id := a];
    forall x | x in r && !r[x].isDeleted
      ensures HasDefault(r, r[x].user)
    {
      if r[x].user == a.user {
        assert IsDefaultOf(r, a.user, id);
      } else {
        var u := r[x].user;
        assert book[x] == r[x];
        var e :| IsDefaultOf(book, u, e);
        assert e != id;
        assert IsDefaultOf(r, u, e);
      }
    }
  }

  /** Storing a live non-default for a user who has a default elsewhere keeps the invariant. */
  lemma PutPlainKeepsValid(book: Book, id: AddressId, a: Address)
    requires ValidBook(book)
    requires !a.isDefault && !a.isDeleted
    requires id in book ==> !book[id].isDefault
    requires HasDefault(book, a.user)
    ensures ValidBook(book[id := a])
  {
    var r := book[id := a];
    forall x | x in r && !r[x].isDeleted
      ensures HasDefault(r, r[x].user)
    {
      var u := r[x].user;
      if x != id {
        assert book[x] == r[x];
      }
      var e :| IsDefaultOf(book, u, e);
      assert e != id;
      assert IsDefaultOf(r, u, e);
    }
  }

  /** Under the invariant the clearing touches at most one record, as `findOneAndUpdate` does. */
  lemma ClearDefaultTouchesOne(book: Book, user: UserId)
    requires AtMostOneDefault(book)
    ensures forall a, b ::
      (a in book && b in book && ClearDefault(book, user)[a] != book[a] && ClearDefault(book, user)[b] != book[b])
      ==> a == b
  {
  }

  /** `getAddressById`: 404 for a missing or deleted address, 403 for another user's. */
  function GetAddressById(book: Book, id: AddressId, caller: UserId): (r: Result<Address, int>)
    ensures !Live(book, id) ==> r == Err(Http.NotFound)
    ensures Live(book, id) && book[id].user != caller ==> r == Err(Http.Forbidden)
    ensures r.Ok? <==> Live(book, id) && book[id].user == caller
    ensures r.Ok? ==> r.value == book[id]
  {
    if !Live(book, id) then Err(Http.NotFound)
    else if book[id].user != caller then Err(Http.Forbidden)
    else Ok(book[id])
  }

  /** `getAddresses`: the caller's live addresses. */
  function GetAddresses(book: Book, caller: UserId): (r: Book)
    ensures forall a :: a in r <==> a in book && book[a].user == caller && !book[a].isDeleted
    ensures forall a :: a in r ==> r[a] == book[a]
  {
    map a | a in book && book[a].user == caller && !book[a].isDeleted :: book[a]
  }

  /** What `setDefaultAddress` stores, as written. The clearing `findOneAndUpdate` runs in
      the database first. `address.save()` then writes only the paths the loaded document
      changed, and setting `isDefault` to `true` on a document loaded as the default changes
      nothing. So for the current default nothing more is written and the clearing stands. */
  function SetDefaultAsWritten(book: Book, id: AddressId, caller: UserId): (r: Book)
    requires id in book
    ensures r.Keys == book.Keys
    ensures forall a :: a in book && a != id ==> r[a] == ClearDefault(book, caller)[a]
    ensures r[id].isDefault <==> !book[id].isDefault || book[id].user != caller
  {
    if book[id].isDefault then ClearDefault(book, caller)
    else ClearDefault(book, caller)[id := book[id].(isDefault := true)]
  }

  /** As written, setting the current default as the default again leaves its owner with a
      live address and no default, which breaks the address-book invariant. */
  lemma {:induction false} SetDefaultAsWrittenLosesDefault(book: Book, id: AddressId, caller: UserId)
    requires Live(book, id) && book[id].user == caller && book[id].isDefault
    ensures Live(SetDefaultAsWritten(book, id, caller), id)
    ensures !HasDefault(SetDefaultAsWritten(book, id, caller), caller)
    ensures !ValidBook(SetDefaultAsWritten(book, id, caller))
  {
    var r := SetDefaultAsWritten(book, id, caller);
    assert r == ClearDefault(book, caller);
    forall a | a in r
      ensures !IsDefaultOf(r, caller, a)
    {
    }
    assert r[id].user == caller && !r[id].isDeleted;
  }

  class AddressBook {
    var addresses: Book

    ghost predicate Valid()
      reads this
    {
      ValidBook(addresses)
    }

    constructor ()
      ensures addresses == map[] && Valid()
    {
      addresses := map[];
    }

    /** `addNewAddress`: a user's first live address becomes the default; a new default
        replaces the old one; otherwise the address is stored as given. */
    method AddNewAddress(newId: AddressId, caller: UserId, details: AddressDetails, isDefault: bool)
      returns (r: Result<Address, int>)
      requires Valid()
      requires newId !in addresses
      modifies this
      ensures Valid()
      ensures r.Ok? && addresses.Keys == old(addresses).Keys + {newId} && addresses[newId] == r.value
      ensures !HasLiveAddress(old(addresses), caller) ==>
        addresses == old(addresses)[newId := Address(caller, details, true, false)]
      ensures HasLiveAddress(old(addresses), caller) && isDefault ==>
        addresses == ClearDefault(old(addresses), caller)[newId := Address(caller, details, true, false)]
      ensures HasLiveAddress(old(addresses), caller) && !isDefault ==>
        addresses == old(addresses)[newId := Address(caller, details, false, false)]
    {
      var makeDefault := isDefault;
      if !HasLiveAddress(addresses, caller) {
        makeDefault := true;
        assert !HasDefault(addresses, caller);
        ClearWithoutDefault(addresses, caller);
      } else if isDefault {
        addresses := ClearDefault(addresses, caller);
      }
      var a := Address(caller, details, makeDefault, false);
      if makeDefault {
        PutDefaultKeepsValid(old(addresses), newId, a);
      } else {
        ghost var l :| l in old(addresses) && old(addresses)[l].user == caller && !old(addresses)[l].isDeleted;
        PutPlainKeepsValid(old(addresses), newId, a);
      }
      addresses := addresses[newId := a];
      return Ok(a);
    }

    /** `updateAddress`: 404 and 403 as for reading; 409 when the caller's default would
        stop being the default; a new default replaces the old one. The fields sent then
        overwrite the stored ones (a `$set`: fields not sent keep their values), and the
        default flag is set. An `isDefault` that is not sent counts as `false`: it fails the
        guard for the default address and, for any other, keeps the stored `false`. */
    method UpdateAddress(id: AddressId, caller: UserId, details: AddressDetails, isDefault: bool)
      returns (r: Result<Address, int>)
      requires Valid()
      modifies this
      ensures Valid()
      ensures !Live(old(addresses), id) ==> r == Err(Http.NotFound)
      ensures Live(old(addresses), id) && old(addresses)[id].user != caller ==> r == Err(Http.Forbidden)
      ensures Live(old(addresses), id) && old(addresses)[id].user == caller && old(addresses)[id].isDefault && !isDefault
        ==> r == Err(Http.Conflict)
      ensures r.Err? ==> addresses == old(addresses)
      ensures r.Ok? <==> Live(old(addresses), id) && old(addresses)[id].user == caller
                         && !(old(addresses)[id].isDefault && !isDefault)
      ensures r.Ok? ==> r.value == Address(caller, old(addresses)[id].details + details, isDefault, false)
      ensures r.Ok? ==>
        addresses == (if isDefault then ClearDefault(old(addresses), caller) else old(addresses))[id := r.value]
    {
      if !Live(addresses, id) {
        return Err(Http.NotFound);
      }
      if addresses[id].user != caller {
        return Err(Http.Forbidden);
      }
      assert HasDefault(addresses, caller);
      var d :| d in addresses && IsDefaultOf(addresses, caller, d);
      assert d == id <==> addresses[id].isDefault;
      if d == id && !isDefault {
        return Err(Http.Conflict);
      }
      var a := Address(caller, addresses[id].details + details, isDefault, false);
      if isDefault {
        PutDefaultKeepsValid(addresses, id, a);
        addresses := ClearDefault(addresses, caller);
      } else {
        PutPlainKeepsValid(addresses, id, a);
      }
      addresses := addresses[id := a];
      return Ok(a);
    }

    /** `deleteAddress`: 404, 403, 409 for the default; otherwise only the deletion flag
        is set. */
    method DeleteAddress(id: AddressId, caller: UserId) returns (r: Result<AddressId, int>)
      requires Valid()
      modifies this
      ensures Valid()
      ensures !Live(old(addresses), id) ==> r == Err(Http.NotFound)
      ensures Live(old(addresses), id) && old(addresses)[id].user != caller ==> r == Err(Http.Forbidden)
      ensures Live(old(addresses), id) && old(addresses)[id].user == caller && old(addresses)[id].isDefault
        ==> r == Err(Http.Conflict)
      ensures r.Err? ==> addresses == old(addresses)
      ensures r.Ok? <==> Live(old(addresses), id) && old(addresses)[id].user == caller && !old(addresses)[id].isDefault
      ensures r.Ok? ==> r.value == id && addresses == old(addresses)[id := old(addresses)[id].(isDeleted := true)]
    {
      if !Live(addresses, id) {
        return Err(Http.NotFound);
      }
      if addresses[id].user != caller {
        return Err(Http.Forbidden);
      }
      if addresses[id].isDefault {
        return Err(Http.Conflict);
      }
      addresses := addresses[id := addresses[id].(isDeleted := true)];
      forall x | x in addresses && !addresses[x].isDeleted
        ensures HasDefault(addresses, addresses[x].user)
      {
        var u := addresses[x].user;
        var e :| IsDefaultOf(old(addresses), u, e);
        assert IsDefaultOf(addresses, u, e);
      }
      return Ok(id);
    }

    /** `setDefaultAddress`: 404, 403; otherwise the old default is cleared and this address
        becomes the caller's only default. */
    method SetDefaultAddress(id: AddressId, caller: UserId) returns (r: Result<Address, int>)
      requires Valid()
      modifies this
      ensures Valid()
      ensures !Live(old(addresses), id) ==> r == Err(Http.NotFound)
      ensures Live(old(addresses), id) && old(addresses)[id].user != caller ==> r == Err(Http.Forbidden)
      ensures r.Err? ==> addresses == old(addresses)
      ensures r.Ok? <==> Live(old(addresses), id) && old(addresses)[id].user == caller
      ensures r.Ok? ==> r.value == old(addresses)[id].(isDefault := true)
      ensures r.Ok? ==> addresses == ClearDefault(old(addresses), caller)[id := r.value]
      ensures r.Ok? ==> forall a :: IsDefaultOf(addresses, caller, a) <==> a == id
    {
      if !Live(addresses, id) {
        return Err(Http.NotFound);
      }
      if addresses[id].user != caller {
        return Err(Http.Forbidden);
      }
      var a := addresses[id].(isDefault := true);
      PutDefaultKeepsValid(addresses, id, a);
      addresses := ClearDefault(addresses, caller)[id := a];
      return Ok(a);
    }

    /** `setDefaultAddress` as written: 404 and 403 as above; otherwise the answer is the
        loaded address with `isDefault` set, and the store is `SetDefaultAsWritten`. For the
        current default, the user is left with no default. */
    method SetDefaultAddressAsWritten(id: AddressId, caller: UserId) returns (r: Result<Address, int>)
      requires Valid()
      modifies this
      ensures !Live(old(addresses), id) ==> r == Err(Http.NotFound)
      ensures Live(old(addresses), id) && old(addresses)[id].user != caller ==> r == Err(Http.Forbidden)
      ensures r.Err? ==> addresses == old(addresses)
      ensures r.Ok? <==> Live(old(addresses), id) && old(addresses)[id].user == caller
      ensures r.Ok? ==> r.value == old(addresses)[id].(isDefault := true)
      ensures r.Ok? ==> addresses == SetDefaultAsWritten(old(addresses), id, caller)
      ensures r.Ok? && old(addresses)[id].isDefault ==> !HasDefault(addresses, caller) && !Valid()
    {
      if !Live(addresses, id) {
        return Err(Http.NotFound);
      }
      if addresses[id].user != caller {
        return Err(Http.Forbidden);
      }
      var loaded := addresses[id];
      if loaded.isDefault {
        SetDefaultAsWrittenLosesDefault(addresses, id, caller);
        addresses := ClearDefault(addresses, caller);
      } else {
        addresses := ClearDefault(addresses, caller)[id := loaded.(isDefault := true)];
      }
      return Ok(loaded.(isDefault := true));
    }
  }
}
