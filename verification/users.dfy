/** The user record of models/user.js: the profile fields, the role, the soft-delete fields,
    the cart lines with their quantity bounds, the wishlist, and the `fullname` virtual. */
module Users {
  import opened Wrappers
  import opened Constants
  import Js

  type UserId = string
  type ProductId = string

  /** `cartItemSchema`: a product and how many of it. */
  datatype CartItem = CartItem(product: ProductId, quantity: int)

  /** The cart line schema: a whole quantity from 1 to 10. */
  predicate ValidCartItem(c: CartItem) {
    QuantityMin <= c.quantity <= QuantityMax
  }

  /** `cart.find(item => item.product === id)` / `findIndex`: the first line for the
      product. */
  function FindLine(cart: seq<CartItem>, pid: ProductId): (r: Option<nat>)
    ensures r.Some? ==> r.value < |cart| && cart[r.value].product == pid
    ensures r.Some? ==> forall j :: 0 <= j < r.value ==> cart[j].product != pid
    ensures r.None? ==> forall j :: 0 <= j < |cart| ==> cart[j].product != pid
  {
    if |cart| == 0 then None
    else if cart[0].product == pid then Some(0)
    else
      var k := FindLine(cart[1..], pid);
      if k.None? then None else Some(k.value + 1)
  }

  /** No two cart lines are for the same product. */
  predicate UniqueProducts(cart: seq<CartItem>) {
    forall i, j :: 0 <= i < j < |cart| ==> cart[i].product != cart[j].product
  }

  /** No product appears twice in a wishlist. */
  predicate UniqueIds(ws: seq<ProductId>) {
    forall i, j :: 0 <= i < j < |ws| ==> ws[i] != ws[j]
  }

  /** `cart.filter(item => item.product !== id)`. */
  function RemoveLines(cart: seq<CartItem>, pid: ProductId): (r: seq<CartItem>)
    ensures |r| <= |cart|
    decreases |cart|
  {
    if |cart| == 0 then []
    else (if cart[0].product == pid then [] else [cart[0]]) + RemoveLines(cart[1..], pid)
  }

  /** The filter keeps exactly the lines of the other products. */
  lemma {:induction false} RemoveLinesMembers(cart: seq<CartItem>, pid: ProductId)
    ensures forall c :: c in RemoveLines(cart, pid) <==> c in cart && c.product != pid
    decreases |cart|
  {
    if |cart| > 0 {
      RemoveLinesMembers(cart[1..], pid);
      assert cart == [cart[0]] + cart[1..];
    }
  }

  /** The filter keeps the other lines in their order: it distributes over concatenation. */
  lemma {:induction false} RemoveLinesConcat(a: seq<CartItem>, b: seq<CartItem>, pid: ProductId)
    ensures RemoveLines(a + b, pid) == RemoveLines(a, pid) + RemoveLines(b, pid)
    decreases |a|
  {
    if |a| > 0 {
      assert (a + b)[1..] == a[1..] + b;
      RemoveLinesConcat(a[1..], b, pid);
    } else {
      assert a + b == b;
    }
  }

  /** A cart without the product is left as it is. */
  lemma {:induction false} RemoveLinesAbsent(cart: seq<CartItem>, pid: ProductId)
    requires forall j :: 0 <= j < |cart| ==> cart[j].product != pid
    ensures RemoveLines(cart, pid) == cart
    decreases |cart|
  {
    if |cart| > 0 {
      RemoveLinesAbsent(cart[1..], pid);
    }
  }

  /** Removing lines keeps the lines unique and valid. */
  lemma {:induction false} RemoveLinesKeeps(cart: seq<CartItem>, pid: ProductId)
    requires UniqueProducts(cart)
    ensures UniqueProducts(RemoveLines(cart, pid))
    decreases |cart|
  {
    if |cart| > 0 {
      RemoveLinesKeeps(cart[1..], pid);
      RemoveLinesMembers(cart[1..], pid);
      var rest := RemoveLines(cart[1..], pid);
      forall x | x in rest
        ensures x.product != cart[0].product
      {
        var k :| 0 <= k < |cart[1..]| && cart[1..][k] == x;
        assert cart[k + 1] == x;
      }
    }
  }

  /** `wishlist.filter(item => item !== id)`. */
  function Without(ws: seq<ProductId>, pid: ProductId): (r: seq<ProductId>)
    ensures forall x :: x in r <==> x in ws && x != pid
    ensures |r| <= |ws|
    decreases |ws|
  {
    if |ws| == 0 then []
    else (if ws[0] == pid then [] else [ws[0]]) + Without(ws[1..], pid)
  }

  /** The wishlist filter keeps the other products in their order. */
  lemma {:induction false} WithoutConcat(a: seq<ProductId>, b: seq<ProductId>, pid: ProductId)
    ensures Without(a + b, pid) == Without(a, pid) + Without(b, pid)
    decreases |a|
  {
    if |a| > 0 {
      var h := if a[0] == pid then [] else [a[0]];
      assert (a + b)[0] == a[0];
      assert (a + b)[1..] == a[1..] + b;
      assert Without(a + b, pid) == h + Without(a[1..] + b, pid);
      assert Without(a, pid) == h + Without(a[1..], pid);
      WithoutConcat(a[1..], b, pid);
      assert h + (Without(a[1..], pid) + Without(b, pid))
          == (h + Without(a[1..], pid)) + Without(b, pid);
    } else {
      assert a + b == b;
    }
  }

  lemma {:induction false} WithoutAbsent(ws: seq<ProductId>, pid: ProductId)
    requires pid !in ws
    ensures Without(ws, pid) == ws
    decreases |ws|
  {
    if |ws| > 0 {
      WithoutAbsent(ws[1..], pid);
    }
  }

  lemma {:induction false} WithoutKeepsUnique(ws: seq<ProductId>, pid: ProductId)
    requires UniqueIds(ws)
    ensures UniqueIds(Without(ws, pid))
    decreases |ws|
  {
    if |ws| > 0 {
      WithoutKeepsUnique(ws[1..], pid);
      assert ws[0] !in ws[1..];
    }
  }

  /** The signed-in user's document (`req.user`), whose cart and wishlist the cart, wishlist
      and order handlers edit in place and then save. */
  class Account {
    var cart: seq<CartItem>
    var wishlist: seq<ProductId>

    /** One line per product, every quantity within the line schema, and no product twice
        in the wishlist. */
    ghost predicate Valid()
      reads this
    {
      UniqueProducts(cart) && (forall i :: 0 <= i < |cart| ==> ValidCartItem(cart[i])) && UniqueIds(wishlist)
    }

    /** A new user starts with an empty cart and an empty wishlist. */
    constructor ()
      ensures cart == [] && wishlist == [] && Valid()
    {
      cart := [];
      wishlist := [];
    }
  }

  /** The stored profile of a user. `lastname` is optional in the schema, so it may be
      missing altogether; the password is the value the save hook would hash. */
  datatype UserRecord = UserRecord(
    firstname: string,
    lastname: Option<string>,
    email: string,
    phone: string,
    password: string,
    role: Role,
    isDeleted: bool,
    deletedBy: Option<UserId>,
    deletedAt: Option<int>,
    roleLastUpdatedBy: Option<UserId>,
    roleUpdatedAt: Option<int>)

  /** `User.create`: the schema defaults give the user role and an account that is not
      deleted. */
  function NewUser(firstname: string, lastname: Option<string>, email: string, phone: string, password: string): (u: UserRecord)
    ensures u.role == User && !u.isDeleted
    ensures u.deletedBy.None? && u.deletedAt.None? && u.roleLastUpdatedBy.None? && u.roleUpdatedAt.None?
    ensures u.firstname == firstname && u.lastname == lastname && u.email == email && u.phone == phone
  {
    UserRecord(firstname, lastname, email, phone, password, User, false, None, None, None, None)
  }

  /** How a template literal renders an optional string field: a missing one prints as
      the word `undefined`. */
  function Interpolated(s: Option<string>): string {
    if s.None? then "undefined" else s.value
  }

  /** The `fullname` virtual as written: first name, a space and the last name rendered by
      the template literal, with trailing whitespace trimmed. */
  function FullnameAsWritten(firstname: string, lastname: Option<string>): (r: string)
    ensures |r| <= |firstname| + 1 + |Interpolated(lastname)|
    ensures r == (firstname + " " + Interpolated(lastname))[..|r|]
    ensures Js.AllWhitespace((firstname + " " + Interpolated(lastname))[|r|..])
    ensures r == [] || !Js.IsWhitespace(r[|r| - 1])
  {
    Js.TrimEnd(firstname + " " + Interpolated(lastname))
  }

  /** A user who signed up without a last name gets the word `undefined` in their full
      name. */
  lemma FullnameShowsUndefined()
    ensures FullnameAsWritten("Jane", None) == "Jane undefined"
  {
    var s := "Jane undefined";
    assert "Jane" + " " + Interpolated(None) == s + [];
    Js.TrimEndOfPadded(s, []);
  }

  /** The full name as intended: a missing last name counts as an empty one. */
  function FullName(firstname: string, lastname: Option<string>): (r: string)
    ensures |r| <= |firstname| + 1 + |lastname.GetOr("")|
    ensures r == (firstname + " " + lastname.GetOr(""))[..|r|]
    ensures r == [] || !Js.IsWhitespace(r[|r| - 1])
  {
    Js.TrimEnd(firstname + " " + lastname.GetOr(""))
  }

  /** For names of letters, a missing or empty last name gives just the first name, and a
      last name is joined to the first name by one space. */
  lemma FullNameParts(firstname: string, lastname: string)
    requires firstname != [] && !Js.IsWhitespace(firstname[|firstname| - 1])
    ensures FullName(firstname, None) == firstname
    ensures FullName(firstname, Some("")) == firstname
    ensures lastname != [] && !Js.IsWhitespace(lastname[|lastname| - 1]) ==>
      FullName(firstname, Some(lastname)) == firstname + " " + lastname
  {
    assert Js.AllWhitespace(" ");
    assert firstname + " " + "" == firstname + " ";
    Js.TrimEndOfPadded(firstname, " ");
    if lastname != [] && !Js.IsWhitespace(lastname[|lastname| - 1]) {
      var m := firstname + " " + lastname;
      assert m[|m| - 1] == lastname[|lastname| - 1];
      assert m + [] == m;
      Js.TrimEndOfPadded(m, []);
    }
  }
}
