/** The database the three view sets share, as one object whose tables the
    endpoints change in place: `save()` on a new row inserts it under the
    next auto-increment id, `save()` on a loaded row overwrites it,
    `delete()` removes it (and, for a user, every product that user owns),
    and `blacklist()` records a refresh token. Each method performs the
    steps of its endpoint and is proved to leave the tables exactly as the
    matching function of `Users`, `Products` or `Auth` says, while keeping
    the database's integrity constraints. */
module Backend {
  import opened Common
  import Users
  import Products
  import Auth

  class Database {
    var users: Users.Table
    var products: Products.Table
    var blacklist: set<string>
    var nextUser: UserId
    var nextProduct: Products.ProductId

    /** The integrity constraints: both tables within their field limits,
        unique e-mails, ids below their counters, and every product owned
        by a stored user (the foreign key on `Product.user`). */
    ghost predicate Valid()
      reads this
    {
      && Users.TableOk(users, nextUser)
      && Products.TableOk(products, nextProduct)
      && forall id :: id in products ==> products[id].owner in users
    }

    /** What the authentication layer guarantees of a logged-in requester:
        the token names a stored user. */
    predicate Known(who: Requester)
      reads this
    {
      who.Authenticated? ==> who.uid in users
    }

    /** An empty database; auto-increment ids start at 1. */
    constructor()
      ensures Valid()
      ensures users == map[] && products == map[] && blacklist == {}
      ensures nextUser == 1 && nextProduct == 1
    {
      users := map[];
      products := map[];
      blacklist := {};
      nextUser := 1;
      nextProduct := 1;
    }

    // -------------------------------------------------------------------
    // Rows

    /** `save()` on a new product: the row goes in under the next id. */
    method InsertProduct(p: Products.Product) returns (id: Products.ProductId)
      requires Valid() && Products.WellFormed(p) && p.owner in users
      modifies this
      ensures Valid()
      ensures id == old(nextProduct) && id !in old(products)
      ensures products == old(products)[id := p] && nextProduct == old(nextProduct) + 1
      ensures users == old(users) && nextUser == old(nextUser) && blacklist == old(blacklist)
    {
      id := nextProduct;
      Products.InsertKeepsTableOk(products, id, p);
      products := products[id := p];
      nextProduct := nextProduct + 1;
    }

    /** `save()` on a loaded product: its row is overwritten, owner kept. */
    method SaveProduct(pk: Products.ProductId, p: Products.Product)
      requires Valid() && pk in products && Products.WellFormed(p) && p.owner == products[pk].owner
      modifies this
      ensures Valid()
      ensures products == old(products)[pk := p]
      ensures users == old(users) && nextUser == old(nextUser) && blacklist == old(blacklist)
      ensures nextProduct == old(nextProduct)
    {
      Products.ReplaceKeepsTableOk(products, nextProduct, pk, p);
      products := products[pk := p];
    }

    /** `save()` on a new user: the row goes in under the next id. */
    method InsertUser(u: Users.User) returns (id: UserId)
      requires Valid() && Users.WellFormed(u) && !Users.EmailTaken(users, u.email, None)
      modifies this
      ensures Valid()
      ensures id == old(nextUser) && id !in old(users)
      ensures users == old(users)[id := u] && nextUser == old(nextUser) + 1
      ensures products == old(products) && nextProduct == old(nextProduct) && blacklist == old(blacklist)
    {
      id := nextUser;
      Users.InsertKeepsTableOk(users, id, u);
      users := users[id := u];
      nextUser := nextUser + 1;
    }

    /** `save()` on a loaded user: its row is overwritten under the same id. */
    method SaveUser(pk: UserId, u: Users.User)
      requires Valid() && pk in users && Users.WellFormed(u) && !Users.EmailTaken(users, u.email, Some(pk))
      modifies this
      ensures Valid()
      ensures users == old(users)[pk := u]
      ensures products == old(products) && nextProduct == old(nextProduct) && blacklist == old(blacklist)
      ensures nextUser == old(nextUser)
    {
      Users.ReplaceKeepsTableOk(users, nextUser, pk, u);
      users := users[pk := u];
    }

    // -------------------------------------------------------------------
    // Products

    /** `create_product`, with the decorator's IsAuthenticated honoured:
        `serializer.save(user=request.user)` inserts the new product under
        the next id. */
    method CreateProduct(who: Requester, body: Body) returns (r: Outcome<Products.Representation>)
      requires Valid() && Known(who)
      modifies this
      ensures Valid()
      ensures (r, products) == Products.Create(old(products), old(nextProduct), who, body)
      ensures nextProduct == if r.Done? then old(nextProduct) + 1 else old(nextProduct)
      ensures users == old(users) && nextUser == old(nextUser) && blacklist == old(blacklist)
    {
      ghost var spec := Products.Create(products, nextProduct, who, body);
      if Products.Admit(Products.CorrectedPermissionFor("create_product"), who).Some? {
        assert spec == (Failed(NotAuthenticated), products);
        return Failed(NotAuthenticated);
      }
      var v := Products.Validate(body, false);
      if v.Err? {
        assert spec == (Failed(v.error), products);
        return Failed(v.error);
      }
      var p := Products.NewProduct(who.uid, body);
      assert spec == (Done(201, Products.Represent(nextProduct, p)), products[nextProduct := p]);
      var id := InsertProduct(p);
      r := Done(201, Products.Represent(id, p));
    }

    /** `partial_update`: load the active product, refuse anyone but its
        owner, validate the body partially, drop `user` and `id` from the
        validated data one key at a time, set the remaining attributes and
        save the product back. */
    method PartialUpdateProduct(who: Requester, pk: Products.ProductId, body: Body)
      returns (r: Outcome<Products.Representation>)
      requires Valid()
      modifies this
      ensures Valid()
      ensures (r, products) == Products.PartialUpdate(old(products), old(nextProduct), who, pk, body)
      ensures users == old(users) && nextUser == old(nextUser) && blacklist == old(blacklist)
      ensures nextProduct == old(nextProduct)
    {
      ghost var spec := Products.PartialUpdate(products, nextProduct, who, pk, body);
      if Products.Admit(Products.CorrectedPermissionFor("partial_update"), who).Some? {
        assert spec == (Failed(NotAuthenticated), products);
        return Failed(NotAuthenticated);
      }
      var found := Products.GetObject(products, pk);
      if found.Err? {
        assert spec == (Failed(found.error), products);
        return Failed(found.error);
      }
      var product := found.value;
      if who.uid != product.owner {
        assert spec == (Failed(PermissionDenied("You do not have permission to update this product.")), products);
        return Failed(PermissionDenied("You do not have permission to update this product."));
      }
      var v := Products.Validate(body, true);
      if v.Err? {
        assert spec == (Failed(v.error), products);
        return Failed(v.error);
      }
      var data := Products.DiscardImmutable(v.value);
      product := Products.Apply(product, data);
      assert product == Products.Update(found.value, v.value);
      Products.UpdateKeepsWellFormed(found.value, body);
      assert spec == (Done(200, Products.Represent(pk, product)), products[pk := product]);
      SaveProduct(pk, product);
      r := Done(200, Products.Represent(pk, product));
    }

    /** `destroy`: load the active product, refuse anyone but its owner,
        and delete the row. */
    method DestroyProduct(who: Requester, pk: Products.ProductId) returns (r: Outcome<()>)
      requires Valid()
      modifies this
      ensures Valid()
      ensures (r, products) == Products.Destroy(old(products), old(nextProduct), who, pk)
      ensures users == old(users) && nextUser == old(nextUser) && blacklist == old(blacklist)
      ensures nextProduct == old(nextProduct)
    {
      if Products.Admit(Products.CorrectedPermissionFor("destroy"), who).Some? {
        return Failed(NotAuthenticated);
      }
      var found := Products.Lookup(products, pk);
      if found.Err? {
        return Failed(found.error);
      }
      if who.uid != found.value.owner {
        return Failed(PermissionDenied("You do not have permission to delete this product."));
      }
      products := products - {pk};
      r := Done(204, ());
    }

    /** `buy`: load the active product and, when its stock is above zero,
        lower the stock by one and save it. */
    method BuyProduct(who: Requester, pk: Products.ProductId) returns (r: Outcome<Products.Purchase>)
      requires Valid()
      modifies this
      ensures Valid()
      ensures (r, products) == Products.Buy(old(products), who, pk)
      ensures users == old(users) && nextUser == old(nextUser) && blacklist == old(blacklist)
      ensures nextProduct == old(nextProduct)
    {
      if Products.Admit(Products.CorrectedPermissionFor("buy"), who).Some? {
        return Failed(NotAuthenticated);
      }
      var found := Products.Lookup(products, pk);
      if found.Err? {
        return Failed(found.error);
      }
      var product := found.value;
      if product.stock > 0 {
        product := product.(stock := product.stock - 1);
        SaveProduct(pk, product);
        r := Done(200, Products.Purchase("Product purchased", product.stock));
      } else {
        r := Failed(BadRequest("Product is out of stock."));
      }
    }

    // -------------------------------------------------------------------
    // Users

    /** `create_user`: validate the body with the create schema, build the
        user with the password hashed (`UserCreateSerializer.create`) and
        insert it under the next id. */
    method CreateUser(body: Body, env: Collaborators) returns (r: Outcome<Users.Profile>)
      requires Valid()
      modifies this
      ensures Valid()
      ensures (r, users) == Users.Create(old(users), old(nextUser), body, env)
      ensures nextUser == if r.Done? then old(nextUser) + 1 else old(nextUser)
      ensures products == old(products) && nextProduct == old(nextProduct) && blacklist == old(blacklist)
    {
      ghost var spec := Users.Create(users, nextUser, body, env);
      var v := Users.Validate(users, None, Users.InputFields(Users.CreateSchema), body, false, env);
      if v.Err? {
        assert spec == (Failed(v.error), users);
        return Failed(v.error);
      }
      var user := Users.NewUser(users, body, env);
      assert spec == (Done(201, Users.ProfileOf(nextUser, user)), users[nextUser := user]);
      var id := InsertUser(user);
      r := Done(201, Users.ProfileOf(id, user));
    }

    /** `partial_update` of a user: load the active user, validate the body
        partially against the profile schema, set each validated attribute
        and save the user back. */
    method PartialUpdateUser(pk: UserId, body: Body, env: Collaborators) returns (r: Outcome<Users.Profile>)
      requires Valid()
      modifies this
      ensures Valid()
      ensures (r, users) == Users.PartialUpdate(old(users), old(nextUser), pk, body, env)
      ensures products == old(products) && nextProduct == old(nextProduct) && blacklist == old(blacklist)
      ensures nextUser == old(nextUser)
    {
      var found := Users.GetObject(users, pk);
      if found.Err? {
        return Failed(found.error);
      }
      var v := Users.Validate(users, Some(pk), Users.InputFields(Users.ProfileSchema), body, true, env);
      if v.Err? {
        return Failed(v.error);
      }
      var user := found.value;
      if "first_name" in v.value {
        user := user.(firstName := v.value["first_name"]);
      }
      if "last_name" in v.value {
        user := user.(lastName := v.value["last_name"]);
      }
      if "email" in v.value {
        user := user.(email := v.value["email"]);
      }
      assert user == Users.Save(found.value, v.value);
      Users.SaveKeepsTableOk(users, nextUser, pk, body, env);
      SaveUser(pk, user);
      r := Done(200, Users.ProfileOf(pk, user));
    }

    /** `delete` of a user: the row goes and, by the cascade on
        `Product.user`, so does every product the user owns; the foreign
        key still holds afterwards. */
    method DeleteUser(pk: UserId) returns (r: Outcome<string>)
      requires Valid()
      modifies this
      ensures Valid()
      ensures (r, users) == Users.Delete(old(users), pk)
      ensures products == if r.Done? then Products.OnOwnerDeleted(old(products), pk) else old(products)
      ensures forall id :: id in products ==> products[id].owner != pk || r.Failed?
      ensures nextUser == old(nextUser) && nextProduct == old(nextProduct) && blacklist == old(blacklist)
    {
      var found := Users.GetObject(users, pk);
      if found.Err? {
        return Failed(found.error);
      }
      users := users - {pk};
      products := Products.OnOwnerDeleted(products, pk);
      r := Done(204, "User deleted successfully");
    }

    // -------------------------------------------------------------------
    // Authentication

    /** `logout`: blacklists the body's `refresh` token when the library
        accepts it, which it does only for a valid token that is not yet
        blacklisted. */
    method Logout(body: Body, env: Collaborators) returns (r: Outcome<string>)
      requires Valid()
      modifies this
      ensures Valid()
      ensures (r, blacklist) == Auth.Logout(old(blacklist), body, env)
      ensures users == old(users) && products == old(products)
      ensures nextUser == old(nextUser) && nextProduct == old(nextProduct)
    {
      if !Auth.LogoutValid(body) {
        return Failed(ValidationError({"refresh_token"}));
      }
      if "refresh" !in body || !Truthy(body["refresh"]) {
        return Done(200, "Successfully logged out");
      }
      var token := body["refresh"];
      if Auth.Accepted(blacklist, token, env) {
        blacklist := blacklist + {token.s};
        r := Done(200, "Successfully logged out");
      } else {
        r := Failed(BadRequest("Refresh token is invalid"));
      }
    }
  }
}
